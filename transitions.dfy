/**
 * The failure/recovery state machine of a sweep (`setMonitorState`): from a
 * row's stored `last_state_failed` and a probe result it decides whether to
 * flip the flag and post a notification to the row's channel. It is edge
 * triggered: a notification goes out only when the state changes.
 */
module Transitions {
  import opened Wrappers
  import opened Strings
  import opened Registry
  import opened Probes
  import opened Messages

  /** `target + ' ' + TYPE + (port ? ' ' + port : '')`. */
  function MonitorString(m: Monitor): string {
    TargetText(m.target) + " " + ToUpper(m.kind) + (if Present(m.port) then " " + m.port.value else "")
  }

  /** `'<@' + user + '>: ' + word + ': ' + monitorString`, then `': ' + info` when info is present. */
  function Notification(m: Monitor, word: string, info: Option<string>): string {
    "<@" + m.user + ">: " + word + ": " + MonitorString(m) + (if Present(info) then ": " + info.value else "")
  }

  /** What one probe result does: nothing, or store `failed` and post `notice`. */
  datatype Effect = Unchanged | Transition(failed: bool, notice: Outgoing)

  /**
   * `setMonitorState`: a state change (and only a state change) stores the
   * probe's verdict and posts one FAILED or RECOVERY message to the row's channel.
   */
  function SetMonitorState(m: Monitor, r: ProbeResult): (e: Effect)
    ensures e.Transition? <==> r.failed != m.lastStateFailed
    ensures e.Transition? ==> e.failed == r.failed && e.notice.channel == m.channel
    ensures e.Transition? ==> e.notice.text == Notification(m, if r.failed then "FAILED" else "RECOVERY", r.info)
  {
    if r.failed && !m.lastStateFailed then
      Transition(true, Outgoing(m.channel, Notification(m, "FAILED", r.info)))
    else if !r.failed && m.lastStateFailed then
      Transition(false, Outgoing(m.channel, Notification(m, "RECOVERY", r.info)))
    else
      Unchanged
  }

  /** The row after an effect is stored. */
  function Apply(m: Monitor, e: Effect): Monitor {
    if e.Transition? then m.(lastStateFailed := e.failed) else m
  }

  /** After any probe result the stored flag equals the result's verdict, and nothing else in the row changes. */
  lemma StoredStateFollowsResult(m: Monitor, r: ProbeResult)
    ensures Apply(m, SetMonitorState(m, r)) == m.(lastStateFailed := r.failed)
  {
  }

  /** One monitor seeing the results `rs` in successive sweeps: the final row and the effects that fired. */
  function Replay(m: Monitor, rs: seq<ProbeResult>): (Monitor, seq<Effect>)
    decreases |rs|
  {
    if rs == [] then (m, [])
    else
      var e := SetMonitorState(m, rs[0]);
      var next := Replay(Apply(m, e), rs[1..]);
      (next.0, (if e.Transition? then [e] else []) + next.1)
  }

  /** The number of times a boolean state changes along `rs`, starting from `state`. */
  function Flips(state: bool, rs: seq<ProbeResult>): nat
    decreases |rs|
  {
    if rs == [] then 0 else (if rs[0].failed != state then 1 else 0) + Flips(rs[0].failed, rs[1..])
  }

  /**
   * Edge triggering over any run of sweeps: the stored flag ends at the last
   * verdict; exactly one notification fires per change of verdict; each goes
   * to the row's channel; the first one reports the opposite of the initial
   * state, and FAILED and RECOVERY messages strictly alternate.
   */
  lemma {:induction false} ReplayEdgeTriggered(m: Monitor, rs: seq<ProbeResult>)
    ensures Replay(m, rs).0 == m.(lastStateFailed := if rs == [] then m.lastStateFailed else rs[|rs| - 1].failed)
    ensures |Replay(m, rs).1| == Flips(m.lastStateFailed, rs)
    ensures forall i :: 0 <= i < |Replay(m, rs).1| ==>
      Replay(m, rs).1[i].Transition? && Replay(m, rs).1[i].notice.channel == m.channel
    ensures |Replay(m, rs).1| > 0 ==> Replay(m, rs).1[0].failed != m.lastStateFailed
    ensures forall i :: 0 <= i < |Replay(m, rs).1| - 1 ==> Replay(m, rs).1[i].failed != Replay(m, rs).1[i + 1].failed
    decreases |rs|
  {
    if rs != [] {
      var e := SetMonitorState(m, rs[0]);
      var m' := Apply(m, e);
      StoredStateFollowsResult(m, rs[0]);
      assert m' == m.(lastStateFailed := rs[0].failed);
      ReplayEdgeTriggered(m', rs[1..]);
      var rest := Replay(m', rs[1..]);
      var pre := if e.Transition? then [e] else [];
      var all := pre + rest.1;
      assert Replay(m, rs) == (rest.0, all);
      if |rs| > 1 {
        assert rs[1..][|rs[1..]| - 1] == rs[|rs| - 1];
      }
      forall i | 0 <= i < |all| - 1 ensures all[i].failed != all[i + 1].failed {
        if pre != [] && i == 0 {
          assert all[1] == rest.1[0];
        } else if pre != [] {
          assert all[i] == rest.1[i - 1] && all[i + 1] == rest.1[i];
        } else {
          assert all[i] == rest.1[i] && all[i + 1] == rest.1[i + 1];
        }
      }
      forall i | 0 <= i < |all| ensures all[i].Transition? && all[i].notice.channel == m.channel {
        if pre != [] && i > 0 {
          assert all[i] == rest.1[i - 1];
        } else if pre == [] {
          assert all[i] == rest.1[i];
        }
      }
    }
  }

  /** A run of results that all agree with the stored state is silent. */
  lemma {:induction false} SteadyStateIsSilent(m: Monitor, rs: seq<ProbeResult>)
    requires forall i :: 0 <= i < |rs| ==> rs[i].failed == m.lastStateFailed
    ensures Replay(m, rs).1 == [] && Replay(m, rs).0 == m
    decreases |rs|
  {
    if rs != [] {
      assert SetMonitorState(m, rs[0]) == Unchanged;
      SteadyStateIsSilent(m, rs[1..]);
    }
  }

  /** A sustained outage of a healthy monitor posts exactly one notification, a FAILED one. */
  lemma {:induction false} SustainedOutage(m: Monitor, rs: seq<ProbeResult>)
    requires |rs| >= 1 && !m.lastStateFailed
    requires forall i :: 0 <= i < |rs| ==> rs[i].failed
    ensures |Replay(m, rs).1| == 1
    ensures Replay(m, rs).1[0].failed
    ensures Replay(m, rs).1[0].notice == Outgoing(m.channel, Notification(m, "FAILED", rs[0].info))
  {
    var m' := m.(lastStateFailed := true);
    assert Apply(m, SetMonitorState(m, rs[0])) == m';
    SteadyStateIsSilent(m', rs[1..]);
  }

  // ---------------------------------------------------------------------------
  // One sweep over a snapshot of the table

  /** A row after a verdict (or none) is stored: only the flag may change, and it takes the verdict when there is one. */
  function Settle(m: Monitor, v: Option<ProbeResult>): (r: Monitor)
    ensures r == m.(lastStateFailed := if v.Some? then v.value.failed else m.lastStateFailed)
  {
    match v
    case None => m
    case Some(res) => Apply(m, SetMonitorState(m, res))
  }

  /** A row after its probe in a sweep. */
  function Swept(m: Monitor, net: Network): Monitor {
    Settle(m, Evaluate(m, net))
  }

  /** The verdict of every row's probe against `net`. */
  function Verdicts(net: Network): Monitor -> Option<ProbeResult> {
    m => Evaluate(m, net)
  }

  /** The notification a row's probe posts in a sweep, if any. */
  function Notice(m: Monitor, net: Network): seq<Outgoing> {
    match Evaluate(m, net)
    case None => []
    case Some(res) =>
      match SetMonitorState(m, res)
      case Transition(_, n) => [n]
      case Unchanged => []
  }

  /** A row's part in a sweep: no verdict or no change leaves it silent and as it was; a change stores the verdict and posts the message. */
  lemma SweepStep(m: Monitor, net: Network)
    ensures Evaluate(m, net).None? ==> Swept(m, net) == m && Notice(m, net) == []
    ensures Evaluate(m, net).Some? && SetMonitorState(m, Evaluate(m, net).value).Unchanged? ==>
      Swept(m, net) == m && Notice(m, net) == []
    ensures Evaluate(m, net).Some? && SetMonitorState(m, Evaluate(m, net).value).Transition? ==>
      && Swept(m, net) == m.(lastStateFailed := SetMonitorState(m, Evaluate(m, net).value).failed)
      && Notice(m, net) == [SetMonitorState(m, Evaluate(m, net).value).notice]
  {
  }

  /** The notifications of a sweep over `rows`, in row order. */
  function Notices(rows: seq<Monitor>, net: Network): seq<Outgoing>
    decreases |rows|
  {
    if rows == [] then [] else Notices(rows[..|rows| - 1], net) + Notice(rows[|rows| - 1], net)
  }

  /** The notifications of one more row are appended after those of the rows before it. */
  lemma NoticesStep(rows: seq<Monitor>, i: nat, net: Network)
    requires i < |rows|
    ensures Notices(rows[..i + 1], net) == Notices(rows[..i], net) + Notice(rows[i], net)
  {
    assert rows[..i + 1][..i] == rows[..i];
  }

  /** The table after a sweep has stored the verdicts `verdict` gives for the rows `rows`, in order. */
  function SweepTable(t: TableState, rows: seq<Monitor>, verdict: Monitor -> Option<ProbeResult>): (r: TableState)
    requires WellFormed(t)
    ensures WellFormed(r) && r.nextId == t.nextId && r.rows.Keys == t.rows.Keys
    decreases |rows|
  {
    if rows == [] then t
    else
      var before := SweepTable(t, rows[..|rows| - 1], verdict);
      var m := rows[|rows| - 1];
      match verdict(m)
      case None => before
      case Some(res) =>
        match SetMonitorState(m, res)
        case Unchanged => before
        case Transition(failed, _) => SetFailed(before, m.id, failed)
  }

  /** One more row's effect on the table. */
  lemma SweepTableStep(t: TableState, rows: seq<Monitor>, i: nat, verdict: Monitor -> Option<ProbeResult>)
    requires WellFormed(t) && i < |rows|
    ensures var v := verdict(rows[i]);
      SweepTable(t, rows[..i + 1], verdict) ==
        if v.Some? && SetMonitorState(rows[i], v.value).Transition?
        then SetFailed(SweepTable(t, rows[..i], verdict), rows[i].id, SetMonitorState(rows[i], v.value).failed)
        else SweepTable(t, rows[..i], verdict)
  {
    assert rows[..i + 1][..i] == rows[..i];
  }

  /**
   * Sweeping rows read from the table, in increasing id order, leaves each of
   * them as `Settle` says and every row after them as it was.
   */
  lemma {:induction false} SweepTableRows(t: TableState, rows: seq<Monitor>, verdict: Monitor -> Option<ProbeResult>)
    requires WellFormed(t)
    requires forall j :: 0 <= j < |rows| ==> rows[j].id in t.rows && t.rows[rows[j].id] == rows[j]
    requires forall j, j' :: 0 <= j < j' < |rows| ==> rows[j].id < rows[j'].id
    ensures forall j :: 0 <= j < |rows| ==> SweepTable(t, rows, verdict).rows[rows[j].id] == Settle(rows[j], verdict(rows[j]))
    ensures forall k :: k in t.rows && (rows == [] || rows[|rows| - 1].id < k) ==>
      SweepTable(t, rows, verdict).rows[k] == t.rows[k]
    decreases |rows|
  {
    if rows != [] {
      var init := rows[..|rows| - 1];
      var m := rows[|rows| - 1];
      SweepTableRows(t, init, verdict);
      var before := SweepTable(t, init, verdict);
      assert before.rows[m.id] == m by {
        if init != [] {
          assert init[|init| - 1].id < m.id;
        }
      }
      SweepTableLast(t, rows, verdict);
      var after := SweepTable(t, rows, verdict);
      forall j | 0 <= j < |rows| - 1 ensures after.rows[rows[j].id] == Settle(rows[j], verdict(rows[j])) {
        assert init[j] == rows[j] && rows[j].id < m.id;
      }
      forall k | k in t.rows && m.id < k ensures after.rows[k] == t.rows[k] {
        if init != [] {
          assert init[|init| - 1].id < m.id;
        }
      }
    }
  }

  /** The last row's verdict touches only that row, and leaves it as `Settle` says when it was unchanged before. */
  lemma SweepTableLast(t: TableState, rows: seq<Monitor>, verdict: Monitor -> Option<ProbeResult>)
    requires WellFormed(t) && rows != []
    requires rows[|rows| - 1].id in t.rows
    requires SweepTable(t, rows[..|rows| - 1], verdict).rows[rows[|rows| - 1].id] == rows[|rows| - 1]
    ensures var m := rows[|rows| - 1];
      && SweepTable(t, rows, verdict).rows[m.id] == Settle(m, verdict(m))
      && forall k :: k in t.rows && k != m.id ==> SweepTable(t, rows, verdict).rows[k] == SweepTable(t, rows[..|rows| - 1], verdict).rows[k]
  {
  }

  /** A sweep over every row of the table leaves each row as its probe's verdict says. */
  lemma SweepWholeTable(t: TableState, net: Network)
    requires WellFormed(t)
    ensures SweepTable(t, Select(t, AllMonitors), Verdicts(net)).rows.Keys == t.rows.Keys
    ensures forall k :: k in t.rows ==> SweepTable(t, Select(t, AllMonitors), Verdicts(net)).rows[k] == Swept(t.rows[k], net)
  {
    var rows := Select(t, AllMonitors);
    SelectRows(t, AllMonitors);
    SweepTableRows(t, rows, Verdicts(net));
    forall k | k in t.rows ensures SweepTable(t, rows, Verdicts(net)).rows[k] == Swept(t.rows[k], net) {
      assert Matches(AllMonitors, t.rows[k]);
      var j :| 0 <= j < |rows| && rows[j].id == k;
    }
  }

  /** A row's probe gives a verdict that differs from its stored flag. */
  predicate Changes(m: Monitor, net: Network) {
    Evaluate(m, net).Some? && Evaluate(m, net).value.failed != m.lastStateFailed
  }

  /** A row posts one message, its transition's, exactly when it changes, and none otherwise. */
  lemma ChangeNotice(m: Monitor, net: Network)
    ensures Changes(m, net) ==> Notice(m, net) == [SetMonitorState(m, Evaluate(m, net).value).notice]
    ensures !Changes(m, net) ==> Notice(m, net) == []
  {
    SweepStep(m, net);
  }

  /** The number of rows of `rows` whose verdict differs from their flag. */
  function CountChanges(rows: seq<Monitor>, net: Network): nat
    decreases |rows|
  {
    if rows == [] then 0 else CountChanges(rows[..|rows| - 1], net) + (if Changes(rows[|rows| - 1], net) then 1 else 0)
  }

  /**
   * Every row whose verdict differs from its flag posts its message in the
   * sweep, and no other message is posted: a sweep posts exactly one message
   * per changing row.
   */
  lemma {:induction false} SweepNoticesComplete(rows: seq<Monitor>, net: Network)
    ensures |Notices(rows, net)| == CountChanges(rows, net)
    ensures forall i :: 0 <= i < |rows| && Changes(rows[i], net) ==>
      SetMonitorState(rows[i], Evaluate(rows[i], net).value).notice in Notices(rows, net)
    decreases |rows|
  {
    if rows != [] {
      var init := rows[..|rows| - 1];
      var last := rows[|rows| - 1];
      SweepNoticesComplete(init, net);
      ChangeNotice(last, net);
      assert Notices(rows, net) == Notices(init, net) + Notice(last, net);
      assert |Notices(rows, net)| == |Notices(init, net)| + |Notice(last, net)|;
      forall i | 0 <= i < |rows| && Changes(rows[i], net)
        ensures SetMonitorState(rows[i], Evaluate(rows[i], net).value).notice in Notices(rows, net)
      {
        if i < |init| {
          assert rows[i] == init[i];
          assert SetMonitorState(init[i], Evaluate(init[i], net).value).notice in Notices(init, net);
        } else {
          assert rows[i] == last;
          assert Notice(last, net) == [SetMonitorState(last, Evaluate(last, net).value).notice];
        }
      }
    }
  }

  /** Row `i` of `rows` changes state in the sweep and `n` is the message it posts. */
  predicate PostedBy(rows: seq<Monitor>, i: int, n: Outgoing, net: Network) {
    && 0 <= i < |rows|
    && Notice(rows[i], net) == [n]
    && Evaluate(rows[i], net).Some?
    && Evaluate(rows[i], net).value.failed != rows[i].lastStateFailed
    && n.channel == rows[i].channel
  }

  /**
   * A sweep posts at most one message per row, each to the channel of a row
   * whose verdict differs from its stored state; a sweep in which no verdict
   * differs is silent.
   */
  lemma {:induction false} SweepNotices(rows: seq<Monitor>, net: Network)
    ensures |Notices(rows, net)| <= |rows|
    ensures forall n :: n in Notices(rows, net) ==> exists i :: PostedBy(rows, i, n, net)
    ensures (forall i :: 0 <= i < |rows| ==> Evaluate(rows[i], net).None? || Evaluate(rows[i], net).value.failed == rows[i].lastStateFailed)
      ==> Notices(rows, net) == []
    decreases |rows|
  {
    if rows != [] {
      var init := rows[..|rows| - 1];
      var last := rows[|rows| - 1];
      SweepNotices(init, net);
      forall n | n in Notices(rows, net) ensures exists i :: PostedBy(rows, i, n, net) {
        if n in Notices(init, net) {
          var i :| PostedBy(init, i, n, net);
          assert rows[i] == init[i];
          assert PostedBy(rows, i, n, net);
        } else {
          assert n in Notice(last, net);
          assert Notice(last, net) == [n];
          assert PostedBy(rows, |rows| - 1, n, net);
        }
      }
      if forall i :: 0 <= i < |rows| ==> Evaluate(rows[i], net).None? || Evaluate(rows[i], net).value.failed == rows[i].lastStateFailed {
        assert forall i :: 0 <= i < |init| ==> init[i] == rows[i];
      }
    }
  }
}
