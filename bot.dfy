/**
 * The bot object: its table, the `monitoringInProgress` guard and the
 * messages it has posted. Incoming chat messages are handled by `OnMessage`;
 * one timer tick of the monitoring loop is `BeginSweep`, one `OnProbeResult`
 * per answered probe, and `EndSweep` (or, all in one, `Tick`).
 */
module Bot {
  import opened Wrappers
  import opened Registry
  import opened Messages
  import opened Commands
  import opened Probes
  import opened Transitions

  class KnockKnockBot {
    /** The bot's own chat user id (`this.user.id`). */
    const botId: string
    /** The monitors table. */
    const db: MonitorTable
    /** Set while a sweep is reading the table; a timer tick that finds it set does nothing. */
    var monitoringInProgress: bool
    /** Every `sendMessage(channel, text)`, in order. */
    var outbox: seq<Outgoing>

    ghost predicate Valid()
      reads this, db
    {
      db.Valid()
    }

    /** A bot with an empty table, no sweep running and nothing posted. */
    constructor (botId: string)
      ensures Valid() && fresh(db) && this.botId == botId
      ensures db.State() == TableState(map[], 1)
      ensures !monitoringInProgress && outbox == []
    {
      this.botId := botId;
      db := new MonitorTable();
      monitoringInProgress := false;
      outbox := [];
    }

    /** `sendMessage`: post a text to a channel. */
    method SendMessage(channel: string, text: string)
      modifies this
      ensures outbox == old(outbox) + [Outgoing(channel, text)]
      ensures monitoringInProgress == old(monitoringInProgress)
    {
      outbox := outbox + [Outgoing(channel, text)];
    }

    // -------------------------------------------------------------------------
    // Commands

    /**
     * The `monitors [all]` command: read the sender's rows (in this channel,
     * or in every channel with `all`), push one line per row, and build the reply.
     */
    method ListMonitors(user: string, channel: string, all: bool, storageError: bool) returns (reply: string)
      requires Valid()
      ensures storageError ==> reply == "Error reading monitors."
      ensures !storageError ==> reply == ListingReply(Listing(Select(db.State(), ListQuery(user, channel, all)), all), all)
    {
      if storageError {
        return "Error reading monitors.";
      }
      var q := ListQuery(user, channel, all);
      var rows, n := db.rows, db.nextId;
      var monitors: seq<string> := [];
      var id := 0;
      while id < n
        invariant 0 <= id <= n
        invariant monitors == Listing(Scan(rows, id, q), all)
      {
        ListingStep(rows, id, q, all);
        if id in rows && Matches(q, rows[id]) {
          monitors := monitors + [ListingLine(rows[id], all)];
        }
        id := id + 1;
      }
      SelectIsScan(db.State(), q);
      reply := ListingReply(monitors, all);
    }

    /**
     * `_onMessage`: a message the bot answers is read as a command, applied to
     * the table, and answered with exactly one reply in the message's channel;
     * any other message changes nothing.
     */
    method OnMessage(msg: Message, storageError: bool) returns (reply: Option<string>)
      requires Valid()
      modifies this, db
      ensures Valid() && monitoringInProgress == old(monitoringInProgress)
      ensures CommandText(msg, botId).None? ==>
        reply.None? && db.State() == old(db.State()) && outbox == old(outbox)
      ensures CommandText(msg, botId).Some? ==>
        var r := Respond(old(db.State()), msg.user, msg.channel.value, Parse(CommandText(msg, botId).value), storageError);
        && reply == Some(r.1)
        && db.State() == r.0
        && outbox == old(outbox) + [Outgoing(msg.channel.value, r.1)]
    {
      var text := CommandText(msg, botId);
      if text.None? {
        return None;
      }
      var channel := msg.channel.value;
      var answer: string;
      match Parse(text.value) {
        case AddMonitor(target, kind, port) =>
          if storageError {
            answer := "Error adding monitor.";
          } else {
            var _ := db.Insert(msg.user, channel, target, kind, port);
            answer := "Monitor added.";
          }
        case ListMonitors(all) =>
          answer := ListMonitors(msg.user, channel, all, storageError);
        case RemoveMonitor(idText) =>
          if storageError {
            answer := "Unable to delete monitor.";
          } else {
            var changes := db.DeleteByIdAndUser(idText, msg.user);
            answer := if changes == 1 then "Monitor #" + IdWord(idText) + " deleted." else "No monitors were affected.";
          }
        case Unknown =>
          answer := "I didn't understand you!";
      }
      SendMessage(channel, answer);
      reply := Some(answer);
    }

    // -------------------------------------------------------------------------
    // Monitoring

    /**
     * A timer tick: if a sweep is running nothing happens; otherwise the guard
     * is set and the sweep reads every row.
     */
    method BeginSweep() returns (snapshot: Option<seq<Monitor>>)
      requires Valid()
      modifies this
      ensures Valid() && monitoringInProgress && outbox == old(outbox)
      ensures old(monitoringInProgress) ==> snapshot.None?
      ensures !old(monitoringInProgress) ==> snapshot == Some(Select(db.State(), AllMonitors))
    {
      if monitoringInProgress {
        return None;
      }
      monitoringInProgress := true;
      snapshot := Some(Select(db.State(), AllMonitors));
    }

    /**
     * `setMonitorState` for a row read by a sweep: on a change of state the
     * stored flag is updated and one notification is posted; otherwise nothing happens.
     */
    method OnProbeResult(row: Monitor, result: ProbeResult)
      requires Valid()
      modifies this, db
      ensures Valid() && monitoringInProgress == old(monitoringInProgress)
      ensures SetMonitorState(row, result).Unchanged? ==> db.State() == old(db.State()) && outbox == old(outbox)
      ensures SetMonitorState(row, result).Transition? ==>
        && db.State() == SetFailed(old(db.State()), row.id, SetMonitorState(row, result).failed)
        && outbox == old(outbox) + [SetMonitorState(row, result).notice]
    {
      match SetMonitorState(row, result) {
        case Unchanged =>
        case Transition(failed, notice) =>
          db.SetLastStateFailed(row.id, failed);
          SendMessage(notice.channel, notice.text);
      }
    }

    /** Row `i` of a sweep: its probe's verdict, if any, is passed to `OnProbeResult`. */
    method SweepRow(ghost start: TableState, rows: seq<Monitor>, i: nat, net: Network)
      requires Valid() && WellFormed(start) && i < |rows|
      requires db.State() == SweepTable(start, rows[..i], Verdicts(net))
      modifies this, db
      ensures Valid() && monitoringInProgress == old(monitoringInProgress)
      ensures db.State() == SweepTable(start, rows[..i + 1], Verdicts(net))
      ensures outbox == old(outbox) + Notice(rows[i], net)
    {
      var result := Evaluate(rows[i], net);
      SweepTableStep(start, rows, i, Verdicts(net));
      SweepStep(rows[i], net);
      if result.Some? {
        OnProbeResult(rows[i], result.value);
      }
    }

    /** The probes of the rows a sweep read, in order, each answered by `net`. */
    method ProbeRows(rows: seq<Monitor>, net: Network)
      requires Valid()
      modifies this, db
      ensures Valid() && monitoringInProgress == old(monitoringInProgress)
      ensures db.State() == SweepTable(old(db.State()), rows, Verdicts(net))
      ensures outbox == old(outbox) + Notices(rows, net)
    {
      ghost var start := db.State();
      var i := 0;
      while i < |rows|
        invariant Valid() && monitoringInProgress == old(monitoringInProgress)
        invariant 0 <= i <= |rows|
        invariant db.State() == SweepTable(start, rows[..i], Verdicts(net))
        invariant outbox == old(outbox) + Notices(rows[..i], net)
      {
        NoticesStep(rows, i, net);
        SweepRow(start, rows, i, net);
        i := i + 1;
      }
      assert rows[..|rows|] == rows;
    }

    /** The end of a sweep's read of the table: the guard is cleared. */
    method EndSweep()
      modifies this
      ensures !monitoringInProgress && outbox == old(outbox)
    {
      monitoringInProgress := false;
    }

    /**
     * One timer tick with every probe answered by `net` before the read
     * completes. A tick during a sweep does nothing. Otherwise every row
     * takes its probe's verdict when its state changes, the notifications of
     * the sweep are posted in row order, the guard ends cleared, and the
     * number of rows read is reported.
     */
    method Tick(net: Network) returns (checked: Option<nat>)
      requires Valid()
      modifies this, db
      ensures Valid()
      ensures old(monitoringInProgress) ==>
        checked.None? && monitoringInProgress && outbox == old(outbox) && db.State() == old(db.State())
      ensures !old(monitoringInProgress) ==>
        && checked == Some(|Select(old(db.State()), AllMonitors)|)
        && !monitoringInProgress
        && db.nextId == old(db.nextId) && db.rows.Keys == old(db.rows).Keys
        && (forall k :: k in db.rows ==> db.rows[k] == Swept(old(db.rows)[k], net))
        && outbox == old(outbox) + Notices(Select(old(db.State()), AllMonitors), net)
    {
      var snapshot := BeginSweep();
      if snapshot.None? {
        return None;
      }
      var rows := snapshot.value;
      ghost var start := db.State();
      ProbeRows(rows, net);
      SweepWholeTable(start, net);
      EndSweep();
      checked := Some(|rows|);
    }
  }
}
