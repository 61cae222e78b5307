# knock-knock-bot, modelled in Dafny

knock-knock-bot is a Slack bot that watches hosts and web sites for its users.

**Chat commands.** Users talk to it in chat:

- `monitor <target> [type] [port]` stores a monitor;
- `monitors [all]` lists the sender's monitors, in this channel or in every channel;
- `unmonitor <id>` deletes one of the sender's monitors.

**The sweep.** Once a minute the bot reads every stored monitor and probes it:

- an HTTP(S) GET for `http` monitors;
- a DNS lookup and an ICMP echo for `ping` monitors;
- a TCP connect for `port` monitors.

It posts a FAILED or RECOVERY message to the monitor's channel only when the monitor changes state.

**Modules.** The model follows `lib/knock-knock-bot.js`:

- `Wrappers`: `Option`.
- `Strings`: the JavaScript string operations the bot uses (`split`, `join`, `startsWith`, first-occurrence `replace`, `substring`, `toUpperCase`) and the decimal text of an id.
- `Registry`: the monitors table.
  - As values: `TableState`, a map from id to row and the next auto-increment id, with pure `InsertRow`, `DeleteRow`, `SetFailed` and `Select`.
  - As the mutable store the bot holds: the class `MonitorTable`, whose methods are proved equal to those functions.
- `Messages`: which incoming events the bot answers, and how the `<@bot>: ` mention is removed.
- `Commands`:
  - reading a command text;
  - the listing lines and reply;
  - `Respond`, which gives what each command does to the table and the one reply it sends.
- `Probes`:
  - unwrapping the `<...>` chat markup around a target;
  - choosing the probe a row calls for;
  - classifying the network's answer into a probe result.

  The network is a parameter (`Network`).
- `Transitions`:
  - the edge-triggered `setMonitorState` state machine and its notification text;
  - what repeated sweeps do to one monitor;
  - what one sweep does to the whole table.
- `Bot`: the class `KnockKnockBot`.
  - It holds the table, the `monitoringInProgress` guard and an outbox of every `sendMessage`.
  - `OnMessage` handles a chat event.
  - A timer tick is `BeginSweep`, then one `OnProbeResult` per answered probe, then `EndSweep`. `Tick` runs all of these in one call.

**Two behaviours of the code:**

- `monitor` does no validation of its type, target or port. Any words are stored, and `type` defaults to `ping` only when the third word is missing or empty.
- `monitoringInProgress` is cleared in the completion callback of the sweep's `db.each`. That is, it is cleared when every row has been read, not when every probe has answered.

## Model

| member | source | states |
|---|---|---|
| Strings.JoinSplit | lib/knock-knock-bot.js:66 | joining the pieces of `split(' ')` with the separator gives the text back, and no piece holds the separator |
| Strings.SplitJoin | lib/knock-knock-bot.js:66 | splitting the join of separator-free words gives exactly those words back |
| Strings.IndexOf | lib/knock-knock-bot.js:64 | the result is the first position at or after `i` where the pattern occurs, and None exactly when it occurs nowhere from `i` on |
| Strings.ReplaceLeadingPattern | lib/knock-knock-bot.js:64 | when the text starts with the pattern, `replace(pat, '')` removes exactly that prefix |
| Strings.ReplaceAbsentPattern | lib/knock-knock-bot.js:64 | when the pattern occurs nowhere, `replace` leaves the text as it is |
| Strings.Substring | lib/knock-knock-bot.js:262 | `substring` of in-range indices is the slice between them, whichever order they come in; two non-positive indices give "" |
| Strings.ToUpper | lib/knock-knock-bot.js:228 | upper-casing keeps the length |
| Strings.NatToString | lib/knock-knock-bot.js:117 | the decimal text of an id is a non-empty run of digits that starts with `0` only for id 0 (no leading zeros) |
| Strings.ParseNatToString | lib/knock-knock-bot.js:157 | the decimal text of an id, compared numerically with the id column, denotes that id |
| Registry.Select | lib/knock-knock-bot.js:103-111 | a SELECT returns exactly the table's rows that match the query, each once, in increasing id order (the order is an assumption, see Left out) |
| Registry.SelectRows | lib/knock-knock-bot.js:222 | every row a SELECT returns is the stored row under its id, and every matching stored row is returned |
| Registry.SelectEmpty | lib/knock-knock-bot.js:136 | a SELECT reads no row exactly when no stored row matches |
| Registry.InsertRow | lib/knock-knock-bot.js:85-86 | INSERT adds one row under the next, never-used id, with the given fields and a healthy flag; it bumps the counter and changes no other row |
| Registry.DeleteRow | lib/knock-knock-bot.js:157 | DELETE scoped to id and user affects 0 or 1 rows; the count is 1 exactly when a row with that id belongs to that user; only that row goes; every other row stays as it was; the counter is untouched |
| Registry.SetFailed | lib/knock-knock-bot.js:242-253 | UPDATE of `last_state_failed` changes only that flag of that row, and no other row |
| Registry.MonitorTable.Insert | lib/knock-knock-bot.js:85-86 | the stored table becomes `InsertRow` of the old one, and the returned id is the old counter |
| Registry.MonitorTable.DeleteByIdAndUser | lib/knock-knock-bot.js:157-161 | the stored table and the returned affected count are those of `DeleteRow` on the old table |
| Registry.MonitorTable.SetLastStateFailed | lib/knock-knock-bot.js:242-253 | the stored table becomes `SetFailed` of the old one |
| Messages.IgnoredMessages | lib/knock-knock-bot.js:48-62 | a command is read exactly from a non-empty `message` event that is not the bot's own, has a string channel, and (in a `C`/`G` channel) starts with `<@bot>:` |
| Messages.AddressedCommand | lib/knock-knock-bot.js:58-64 | a message `<@bot>: <command>` in any channel yields exactly `<command>` |
| Messages.DirectCommand | lib/knock-knock-bot.js:54-64 | a direct message that never contains the mention is read unchanged |
| Messages.DirectCommandInnerMention | lib/knock-knock-bot.js:54-64 | in a direct message, the first `<@bot>: ` is removed wherever it stands, and the text around it is kept |
| Commands.ParseRender | lib/knock-knock-bot.js:66-75 | reading the single-spaced text of a command gives that command back: action, target, type, port, `all` flag and id |
| Commands.MonitorCommandArguments | lib/knock-knock-bot.js:73-75 | `monitor <t> <k> <p>` gives target t, type k and port p |
| Commands.MonitorCommandDefaults | lib/knock-knock-bot.js:73-75 | `monitor <t>` gives target t, type `ping` and no port |
| Commands.Listing | lib/knock-knock-bot.js:111-127 | one line per row read, in order, each the `#id target type[ Port: p][ (Channel: c)]` line of its row |
| Commands.ListingStep | lib/knock-knock-bot.js:111-127 | reading one more id extends the listing by exactly that row's line when the row exists and matches |
| Commands.ListingReplyEmpty | lib/knock-knock-bot.js:136-144 | the reply is "You have currently no monitors." exactly when no line was read |
| Commands.ListedIdRoundTrip | lib/knock-knock-bot.js:117 | the first word of a listing line is `#` followed by text that `unmonitor` resolves to that row's id |
| Commands.RespondAddsOneRow | lib/knock-knock-bot.js:71-95 | a successful `monitor` replies "Monitor added." and adds exactly one row, under a fresh id, owned by the sender, healthy; no other row changes |
| Commands.RespondScopedDelete | lib/knock-knock-bot.js:153-166 | `unmonitor` never touches another user's row and removes at most one row; it replies "Monitor #<id> deleted." exactly when one of the sender's rows has that id, and "No monitors were affected." exactly when none does |
| Commands.RespondListing | lib/knock-knock-bot.js:99-145 | a listing leaves the table as it is; it replies "You have currently no monitors." exactly when the sender has no row in this channel (with `all`: in any channel) |
| Commands.RespondLeavesTable | lib/knock-knock-bot.js:87-171 | unknown commands, listings and failed storage calls leave the table unchanged |
| Probes.UnwrapMarkup | lib/knock-knock-bot.js:262 | unwrapping `<inner>` gives exactly `inner` |
| Probes.UnwrapShort | lib/knock-knock-bot.js:262 | a target of at most one character is left whole, because `substring` swaps reversed bounds |
| Probes.HostOfLink | lib/knock-knock-bot.js:302 | the host of a labelled link (a URL, a bar and a label inside angle brackets) is its label |
| Probes.HostOfBareLink | lib/knock-knock-bot.js:329 | a `<url>` link without a label has no host |
| Probes.ProbeFor | lib/knock-knock-bot.js:224-343 | no probe exactly for rows without target or type, of an unknown type, `http` rows whose protocol is neither `http:` nor `https:`, and `ping` rows without a host (where the code throws instead, see Left out); otherwise GET or HTTPS GET of the unwrapped URL, ping of the host, or connect to port and host |
| Probes.ClassifyHttp | lib/knock-knock-bot.js:271-291 | failed exactly for status 500 (info "response code 500") or a transport error (info its message); healthy without info otherwise |
| Probes.ClassifyPing | lib/knock-knock-bot.js:304-323 | a lookup or echo error fails with its text, a reply is healthy with no info, and only a lookup without addresses reports nothing |
| Probes.ClassifyPort | lib/knock-knock-bot.js:331-336 | a connection is healthy, a connection error fails with its text |
| Probes.NoResultCases | lib/knock-knock-bot.js:224-341 | rows without target or type, of an unknown type, or whose URL is not HTTP(S) never produce a probe result |
| Probes.HttpRowResult | lib/knock-knock-bot.js:262-294 | an HTTP(S) row's result is the classified answer to a GET of its unwrapped URL |
| Transitions.SetMonitorState | lib/knock-knock-bot.js:228-256 | a notification fires exactly when the verdict differs from the stored flag; it stores the verdict and posts one FAILED (on failure) or RECOVERY message, with the text built from the row and info, to the row's channel |
| Transitions.StoredStateFollowsResult | lib/knock-knock-bot.js:232-256 | after any probe result the stored flag equals the verdict, and nothing else in the row changes |
| Transitions.ReplayEdgeTriggered | lib/knock-knock-bot.js:232-256 | over any run of sweeps the flag ends at the last verdict; one notification fires per change of verdict, each to the row's channel; the first reports the opposite of the initial state, and FAILED and RECOVERY alternate |
| Transitions.SteadyStateIsSilent | lib/knock-knock-bot.js:234-255 | results that agree with the stored state post nothing and change nothing |
| Transitions.SustainedOutage | lib/knock-knock-bot.js:234-243 | a run of failures of a healthy monitor posts exactly one message, the FAILED one for the first failure |
| Transitions.Settle | lib/knock-knock-bot.js:232-256 | a row after a verdict (or none) differs from the old row at most in its flag, which takes the verdict |
| Transitions.SweepTableRows | lib/knock-knock-bot.js:222-253 | storing the verdicts of rows read in id order leaves each of them settled by its verdict and every later row as it was |
| Transitions.SweepWholeTable | lib/knock-knock-bot.js:222-343 | a sweep over all rows leaves every row as its own probe's verdict says |
| Transitions.SweepNotices | lib/knock-knock-bot.js:222-256 | a sweep posts at most one message per row, each to the channel of a row whose verdict differs from its flag; a sweep with no such row is silent |
| Transitions.SweepNoticesComplete | lib/knock-knock-bot.js:222-256 | every row whose verdict differs from its flag posts its message in the sweep, and the number of messages equals the number of such rows |
| Strings.Split | lib/knock-knock-bot.js:66 | `split(' ')` always yields at least one piece, so `parts[0]` is always defined |
| Strings.Join | lib/knock-knock-bot.js:141 | `monitors.join('\n')`; its meaning is fixed by JoinSplit and SplitJoin |
| Strings.ReplaceFirst | lib/knock-knock-bot.js:64 | with no occurrence the text is unchanged; otherwise the first occurrence, and only it, is replaced: the text before it and after it is kept |
| Messages.IsChatMessage | lib/knock-knock-bot.js:356-358 | a `message` event with non-empty text (the predicate itself; used by IgnoredMessages) |
| Messages.IsFromKnockKnockBot | lib/knock-knock-bot.js:360-362 | the sender is the bot's own user (the predicate itself; used by IgnoredMessages) |
| Messages.CommandText | lib/knock-knock-bot.js:48-64 | a command is read only from a chat message not sent by the bot, with a string channel, and in a shared channel only when the text starts with the mention |
| Commands.Parse | lib/knock-knock-bot.js:66-75 | the command is Unknown exactly when the first word is none of the three actions; a `monitor` always has a non-empty type, and its target, port and an `unmonitor` id are single words |
| Commands.ListingLine | lib/knock-knock-bot.js:117-125 | the line of one row (its first word is proved by ListedIdRoundTrip) |
| Commands.ListingReply | lib/knock-knock-bot.js:136-144 | the reply for the lines read (its empty case is proved by ListingReplyEmpty) |
| Commands.Respond | lib/knock-knock-bot.js:69-172 | every command keeps the table well-formed, moves the id counter only by a successful `monitor`, adds no id other than the next one, and leaves every surviving row as it was |
| Probes.Unwrap | lib/knock-knock-bot.js:262 | a target of at least two characters loses exactly its first and last character; a shorter one is kept whole |
| Probes.Host | lib/knock-knock-bot.js:302 | the host, when there is one, holds no bar; for labelled and bare links its value is proved by HostOfLink and HostOfBareLink |
| Probes.Evaluate | lib/knock-knock-bot.js:258-343 | the probe result of a row, which includes the dispatch `Answer`. A row yields a result only when it has a target and a known type. An `http` result is the classified GET of its unwrapped URL. A `ping` row with a host always gets the classified ping of that host. A `port` row with a target always gets the classified connect to its port and host |
| Transitions.MonitorString | lib/knock-knock-bot.js:228 | the `target TYPE[ port]` text of a row (used by Notification) |
| Transitions.Notification | lib/knock-knock-bot.js:229-240 | the FAILED/RECOVERY text of a row with its optional `: info` suffix (stated for SetMonitorState) |
| Transitions.SweepTable | lib/knock-knock-bot.js:222-253 | storing a sweep's verdicts keeps the table well-formed, its ids and its counter |
| Bot.KnockKnockBot.SweepRow | lib/knock-knock-bot.js:232-256 | one row of a sweep: the table becomes SweepTable of one more row, and that row's notice is appended |
| Bot.KnockKnockBot.ProbeRows | lib/knock-knock-bot.js:222-343 | the loop over the rows read: the table becomes SweepTable of all of them and their notices are posted in order |
| Bot.KnockKnockBot.constructor | lib/knock-knock-bot.js:15-23 | a new bot has an empty table, no sweep running and nothing posted |
| Bot.KnockKnockBot.SendMessage | lib/knock-knock-bot.js:40-42 | a post is appended to the outbox |
| Bot.KnockKnockBot.ListMonitors | lib/knock-knock-bot.js:99-148 | the loop that pushes one line per row read yields the listing reply of the matching rows, or "Error reading monitors." on a storage error |
| Bot.KnockKnockBot.OnMessage | lib/knock-knock-bot.js:44-175 | an ignored message changes nothing and posts nothing; an answered one changes the table as `Respond` says and posts its one reply to the message's channel |
| Bot.KnockKnockBot.BeginSweep | lib/knock-knock-bot.js:213-222 | a tick during a sweep does nothing; otherwise the guard is set and every row is read |
| Bot.KnockKnockBot.OnProbeResult | lib/knock-knock-bot.js:232-256 | a state change updates that row's flag and posts its message; otherwise nothing changes |
| Bot.KnockKnockBot.EndSweep | lib/knock-knock-bot.js:345-350 | the completion of the row read clears the guard |
| Bot.KnockKnockBot.Tick | lib/knock-knock-bot.js:213-350 | a tick during a sweep changes nothing; otherwise every row takes its probe's verdict, the sweep's notifications are posted in row order, no row is added or removed, the guard ends cleared, and the number of rows read is reported |

## Left out

- Slack transport: the `Bot` inheritance, `run`, `_onStart`, `postMessage` and `_loadBotUser`. `sendMessage` is modelled as appending `(channel, text)` to `outbox`, and the bot's user id is a constructor argument.
- Messages without a `user` field, and the bot's own user being missing (`this.user` null), are not modelled: `Message.user` is always a string.
- SQLite and the filesystem (`_connectDb`, `create-tables.sql`) are replaced by the in-memory table.
  - Storage errors of INSERT, SELECT and DELETE are a boolean parameter `storageError`.
  - Errors of the sweep's UPDATE are ignored by the code and are not modelled.
  - The per-row error callback of the listing's `db.each` is not modelled.
  - Errors of the sweep's SELECT are not modelled. On a per-row error the code reads `row.target` of an undefined row and throws a TypeError; an error in the completion callback is only logged.
- Registry.Select: SQLite promises no row order without ORDER BY. The model takes both SELECTs to return rows in increasing id order, so the order of the listing lines and of a sweep's notifications is an assumption.
  - `create-tables.sql` is not part of this model. Ids are taken to be never reused, as an AUTOINCREMENT key guarantees.
- Registry.IdMatches: only a non-empty run of decimal digits, leading zeros allowed, matches an id. Other texts SQLite would convert to a number (`+7`, `7.0`, ` 7`) match nothing in the model.
- Registry.Present: a port is truthy when it is stored and non-empty. SQLite's type affinity is not modelled, so a port column converting `0` to a falsy integer is not captured.
- Strings: JavaScript strings are sequences of UTF-16 code units (`length`, `substring`, `channel[0]`), while a Dafny `string` is a sequence of Unicode scalar values. They differ only for characters outside the Basic Multilingual Plane. Such a character at either end of a target, for example, would be unwrapped differently.
- Strings.ToUpper: only ASCII letters are upper-cased. Unicode case mapping is not modelled, and the contract states only that the length is kept.
- Real network probes (`http.get`, `https.get`, `dns.resolve`, `net-ping`, `net.connect`) and `url.parse` are abstracted.
  - They are the fields of `Network`.
  - `url.parse` appears only as the `protocol` it reports.
  - A probe that never answers is a `Network` without that answer, which the model cannot express: every probe answers.
  - Synchronous throws inside those libraries are not modelled.
  - Probes.ProbeFor: a `ping` row whose unwrapped target has no `|` (any target not written as a labelled link) has no host. The code passes `undefined` to `dns.resolve`, which throws out of the row callback. The model instead skips the row (no probe, no state change).
  - Probes.Evaluate: a `port` row stored without a port (`monitor <host> port` stores null, line 75) or with a non-numeric port makes `net.connect(row.port, …)` throw out of the row callback (line 331). The model instead gives the classified answer of `net.connect(None, …)` or of the stored text.
- Timing and asynchrony: `setInterval`, the 60-second period and the interleaving of callbacks are not modelled.
  - The fine-grained methods `BeginSweep`, `OnProbeResult` and `EndSweep` can be called in any order, as the callbacks can run.
  - Bot.KnockKnockBot.Tick covers only the order in which every probe answers before the row read completes. Probe results arriving after `EndSweep` are calls of `OnProbeResult` after it.
- `console.log` output is not modelled.
- bin/bot.js (reading settings from the environment) and data/database-generator.js (creating the database file) are I/O plumbing and are not part of this model.
