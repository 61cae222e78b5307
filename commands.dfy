/**
 * The chat commands: splitting a command text into an action and its
 * arguments, the `monitors` listing text, and what each command does to the
 * table and replies (`monitor`, `monitors [all]`, `unmonitor <id>`, anything
 * else).
 */
module Commands {
  import opened Wrappers
  import opened Strings
  import opened Registry

  /** A command as read from its text; absent arguments are None (`parts[i] || null`). */
  datatype Command =
    | AddMonitor(target: Option<string>, kind: string, port: Option<string>)
    | ListMonitors(all: bool)
    | RemoveMonitor(id: Option<string>)
    | Unknown

  /** `parts[i] || null`: a missing or empty part is null. */
  function Arg(parts: seq<string>, i: nat): Option<string> {
    if i < |parts| && parts[i] != "" then Some(parts[i]) else None
  }

  /** The command a text denotes, read from `text.split(' ')`. */
  function Parse(text: string): (c: Command)
    ensures c.Unknown? <==> Split(text, ' ')[0] !in {"monitor", "monitors", "unmonitor"}
    ensures c.AddMonitor? ==> c.kind != "" && (c.target.Some? ==> IsWord(c.target.value)) && (c.port.Some? ==> IsWord(c.port.value))
    ensures c.RemoveMonitor? && c.id.Some? ==> ' ' !in c.id.value
  {
    var parts := Split(text, ' ');
    JoinSplit(text, ' ');
    var action := parts[0];
    if action == "monitor" then
      AddMonitor(Arg(parts, 1), if Arg(parts, 2).Some? then parts[2] else "ping", Arg(parts, 3))
    else if action == "monitors" then
      ListMonitors(|parts| > 1 && parts[1] == "all")
    else if action == "unmonitor" then
      RemoveMonitor(if |parts| > 1 then Some(parts[1]) else None)
    else
      Unknown
  }

  /** A non-empty argument without spaces. */
  predicate IsWord(w: string) {
    w != "" && ' ' !in w
  }

  /** The commands a user can type with single spaces (the defaults are left out when not typed). */
  predicate Typeable(c: Command) {
    match c
    case AddMonitor(t, k, p) =>
      && (t.None? ==> k == "ping" && p.None?)
      && (t.Some? ==> IsWord(t.value) && IsWord(k))
      && (p.Some? ==> IsWord(p.value))
    case ListMonitors(_) => true
    case RemoveMonitor(id) => id.Some? ==> ' ' !in id.value
    case Unknown => false
  }

  /** The words of the shortest text that types a command. */
  function Words(c: Command): seq<string> {
    match c
    case AddMonitor(t, k, p) =>
      ["monitor"] + (if t.Some? then [t.value, k] + (if p.Some? then [p.value] else []) else [])
    case ListMonitors(all) => ["monitors"] + (if all then ["all"] else [])
    case RemoveMonitor(id) => ["unmonitor"] + (if id.Some? then [id.value] else [])
    case Unknown => []
  }

  /** The text that types a command. */
  function Render(c: Command): string {
    Join(Words(c), " ")
  }

  /** Reading the typed text of a command gives the command back. */
  lemma {:induction false} ParseRender(c: Command)
    requires Typeable(c)
    ensures Parse(Render(c)) == c
  {
    var ws := Words(c);
    assert ' ' !in "monitor" && ' ' !in "monitors" && ' ' !in "unmonitor" && ' ' !in "all";
    assert |ws| >= 1;
    assert forall i :: 0 <= i < |ws| ==> ' ' !in ws[i];
    SplitJoin(ws, ' ');
    assert Split(Render(c), ' ') == ws;
  }

  /** A typed `monitor` command with all three arguments. */
  lemma MonitorCommandArguments(target: string, kind: string, port: string)
    requires IsWord(target) && IsWord(kind) && IsWord(port)
    ensures Parse("monitor " + target + " " + kind + " " + port) == AddMonitor(Some(target), kind, Some(port))
  {
    var c := AddMonitor(Some(target), kind, Some(port));
    ParseRender(c);
    var ws := ["monitor", target, kind, port];
    assert Words(c) == ws;
    assert ws[1..] == [target, kind, port] && ws[1..][1..] == [kind, port] && ws[1..][1..][1..] == [port];
    assert Join([kind, port], " ") == kind + " " + port;
    assert Join([target, kind, port], " ") == target + " " + (kind + " " + port);
    assert Render(c) == "monitor" + " " + (target + " " + (kind + " " + port));
    assert "monitor" + " " + (target + " " + (kind + " " + port)) == "monitor " + target + " " + kind + " " + port;
  }

  /** A `monitor` command without a type probes by ping; without a port stores null. */
  lemma MonitorCommandDefaults(target: string)
    requires IsWord(target)
    ensures Parse("monitor " + target) == AddMonitor(Some(target), "ping", None)
  {
    var parts := ["monitor", target];
    assert ' ' !in "monitor";
    SplitJoin(parts, ' ');
    assert Join(parts, " ") == "monitor " + target;
  }

  // ---------------------------------------------------------------------------
  // The `monitors` listing

  /** The SELECT a listing issues: the user's rows in this channel, or in all channels. */
  function ListQuery(user: string, channel: string, all: bool): Query {
    if all then ByUser(user) else ByUserAndChannel(user, channel)
  }

  /** `'#' + id + ' ' + target + ' ' + type`, then the port when present and the channel in `all` mode. */
  function ListingLine(m: Monitor, all: bool): string {
    "#" + NatToString(m.id) + " " + TargetText(m.target) + " " + m.kind
      + (if Present(m.port) then " Port: " + m.port.value else "")
      + (if all then " (Channel: " + m.channel + ")" else "")
  }

  /** The lines pushed for the rows a listing reads, in row order. */
  function Listing(rows: seq<Monitor>, all: bool): (lines: seq<string>)
    ensures |lines| == |rows|
    ensures forall i :: 0 <= i < |rows| ==> lines[i] == ListingLine(rows[i], all)
    decreases |rows|
  {
    if rows == [] then [] else Listing(rows[..|rows| - 1], all) + [ListingLine(rows[|rows| - 1], all)]
  }

  /** Reading one more id extends the listing by that row's line when the row exists and matches. */
  lemma ListingStep(rows: map<nat, Monitor>, n: nat, q: Query, all: bool)
    ensures Listing(Scan(rows, n + 1, q), all) ==
      Listing(Scan(rows, n, q), all) + (if n in rows && Matches(q, rows[n]) then [ListingLine(rows[n], all)] else [])
  {
    var before := Scan(rows, n, q);
    if n in rows && Matches(q, rows[n]) {
      assert Scan(rows, n + 1, q) == before + [rows[n]];
      assert (before + [rows[n]])[..|before|] == before;
    } else {
      assert Scan(rows, n + 1, q) == before;
    }
  }

  const NoMonitorsReply: string := "You have currently no monitors."

  /** The first line of a non-empty listing and the blank line after it. */
  function ListingHeader(all: bool): string {
    "Here is a list of your monitors in " + (if all then "ALL CHANNELS" else "THIS CHANNEL") + ":\n\n"
  }

  /** The reply to a listing that read `lines`. */
  function ListingReply(lines: seq<string>, all: bool): string {
    if |lines| == 0 then NoMonitorsReply
    else ListingHeader(all) + Join(lines, "\n")
  }

  /** The empty-listing reply is given exactly when no line was read. */
  lemma ListingReplyEmpty(lines: seq<string>, all: bool)
    ensures ListingReply(lines, all) == NoMonitorsReply <==> |lines| == 0
  {
    if |lines| > 0 {
      assert ListingReply(lines, all)[0] == ListingHeader(all)[0] == 'H';
      assert NoMonitorsReply[0] == 'Y';
    }
  }

  /** The id a listing line starts with (`#<id>`) is text that `unmonitor` resolves to that row's id. */
  lemma {:induction false} ListedIdRoundTrip(m: Monitor, all: bool)
    ensures |Split(ListingLine(m, all), ' ')[0]| >= 1
    ensures Split(ListingLine(m, all), ' ')[0][0] == '#'
    ensures ParseDecimal(Split(ListingLine(m, all), ' ')[0][1..]) == Some(m.id)
  {
    var digits := NatToString(m.id);
    var w := "#" + digits;
    var rest := TargetText(m.target) + " " + m.kind
      + (if Present(m.port) then " Port: " + m.port.value else "")
      + (if all then " (Channel: " + m.channel + ")" else "");
    assert ListingLine(m, all) == w + [' '] + rest;
    assert forall i :: 0 <= i < |w| ==> w[i] != ' ' by {
      forall i | 0 <= i < |w| ensures w[i] != ' ' {
        if i > 0 { assert w[i] == digits[i - 1] && IsDigit(digits[i - 1]); }
      }
    }
    SplitAfterPiece(w, ' ', rest);
    assert w[1..] == digits;
    ParseNatToString(m.id);
  }

  // ---------------------------------------------------------------------------
  // Dispatch

  /** The id argument as concatenation renders it (`undefined` when missing). */
  function IdWord(idText: Option<string>): string {
    if idText.Some? then idText.value else "undefined"
  }

  /**
   * What a command from `user` in `channel` does to the table and what the bot
   * replies; `storageError` is whether the database call reports an error.
   */
  function Respond(t: TableState, user: string, channel: string, cmd: Command, storageError: bool): (r: (TableState, string))
    requires WellFormed(t)
    ensures WellFormed(r.0)
    ensures r.0.nextId == t.nextId || (cmd.AddMonitor? && r.0.nextId == t.nextId + 1)
    ensures r.0.rows.Keys <= t.rows.Keys + {t.nextId}
    ensures forall k :: k in r.0.rows && k in t.rows ==> r.0.rows[k] == t.rows[k]
  {
    match cmd
    case AddMonitor(target, kind, port) =>
      if storageError then (t, "Error adding monitor.")
      else (InsertRow(t, user, channel, target, kind, port), "Monitor added.")
    case ListMonitors(all) =>
      if storageError then (t, "Error reading monitors.")
      else (t, ListingReply(Listing(Select(t, ListQuery(user, channel, all)), all), all))
    case RemoveMonitor(idText) =>
      if storageError then (t, "Unable to delete monitor.")
      else
        var (t', changes) := DeleteRow(t, idText, user);
        if changes == 1 then (t', "Monitor #" + IdWord(idText) + " deleted.")
        else (t', "No monitors were affected.")
    case Unknown => (t, "I didn't understand you!")
  }

  /** A successful `monitor` adds exactly one row, under a never-used id, owned by the sender, starting healthy. */
  lemma RespondAddsOneRow(t: TableState, user: string, channel: string, target: Option<string>, kind: string, port: Option<string>)
    requires WellFormed(t)
    ensures var r := Respond(t, user, channel, AddMonitor(target, kind, port), false);
      && r.1 == "Monitor added."
      && |r.0.rows| == |t.rows| + 1
      && t.nextId !in t.rows && r.0.rows[t.nextId] == Monitor(t.nextId, user, channel, target, kind, port, false)
      && forall k :: k in t.rows ==> k in r.0.rows && r.0.rows[k] == t.rows[k]
  {
    var r := InsertRow(t, user, channel, target, kind, port);
    assert r.rows.Keys == t.rows.Keys + {t.nextId};
    assert |r.rows.Keys| == |t.rows.Keys| + 1;
  }

  /**
   * `unmonitor` never touches another user's row; it replies "Monitor #<id>
   * deleted." exactly when one of the sender's rows had that id, and "No
   * monitors were affected." otherwise.
   */
  lemma RespondScopedDelete(t: TableState, user: string, channel: string, idText: Option<string>)
    requires WellFormed(t)
    ensures var r := Respond(t, user, channel, RemoveMonitor(idText), false);
      && (forall k :: k in t.rows && t.rows[k].user != user ==> k in r.0.rows && r.0.rows[k] == t.rows[k])
      && r.0.nextId == t.nextId
      && |t.rows| - |r.0.rows| <= 1
      && ((exists k :: k in t.rows && IdMatches(idText, k) && t.rows[k].user == user) <==>
          r.1 == "Monitor #" + IdWord(idText) + " deleted.")
      && ((forall k :: k in t.rows && IdMatches(idText, k) ==> t.rows[k].user != user) <==>
          r.1 == "No monitors were affected.")
  {
    var d := DeleteRow(t, idText, user);
    var deleted := "Monitor #" + IdWord(idText) + " deleted.";
    assert deleted[0] == 'M' && "No monitors were affected."[0] == 'N';
  }

  /**
   * A listing changes nothing; its reply is "You have currently no monitors."
   * exactly when the sender has no row in this channel (or, with `all`, in any
   * channel).
   */
  lemma RespondListing(t: TableState, user: string, channel: string, all: bool)
    requires WellFormed(t)
    ensures var r := Respond(t, user, channel, ListMonitors(all), false);
      && r.0 == t
      && (r.1 == NoMonitorsReply <==>
          forall k :: k in t.rows ==> t.rows[k].user != user || (!all && t.rows[k].channel != channel))
  {
    var q := ListQuery(user, channel, all);
    var lines := Listing(Select(t, q), all);
    assert Respond(t, user, channel, ListMonitors(all), false) == (t, ListingReply(lines, all));
    ListingReplyEmpty(lines, all);
    SelectEmpty(t, q);
    assert forall k :: k in t.rows ==> (Matches(q, t.rows[k]) <==> t.rows[k].user == user && (all || t.rows[k].channel == channel));
  }

  /** Unknown commands and failed storage calls leave the table as it is. */
  lemma RespondLeavesTable(t: TableState, user: string, channel: string, cmd: Command, storageError: bool)
    requires WellFormed(t)
    requires cmd.Unknown? || cmd.ListMonitors? || storageError
    ensures Respond(t, user, channel, cmd, storageError).0 == t
  {
  }
}
