/**
 * Chat messages as the bot sees them: which incoming events it answers, how
 * the `<@botid>: ` mention is removed before the command is read, and the
 * outgoing `(channel, text)` pairs it posts.
 */
module Messages {
  import opened Wrappers
  import opened Strings

  /**
   * An incoming event: its `type`, the sending user, the channel (absent when
   * the event carries no string channel) and the text ("" when absent).
   */
  datatype Message = Message(kind: string, user: string, channel: Option<string>, text: string)

  /** A message the bot posts: `sendMessage(channel, text)`. */
  datatype Outgoing = Outgoing(channel: string, text: string)

  /** `_isChatMessage`: a `message` event with non-empty text. */
  predicate IsChatMessage(msg: Message) {
    msg.kind == "message" && msg.text != ""
  }

  /** `_isFromKnockKnockBot`: sent by the bot's own user. */
  predicate IsFromKnockKnockBot(msg: Message, botId: string) {
    msg.user == botId
  }

  /** The text a channel message must start with to be addressed to the bot. */
  function Mention(botId: string): string {
    "<@" + botId + ">:"
  }

  /** Public and private group channels have ids starting with `C` or `G`. */
  predicate IsSharedChannel(channel: string) {
    |channel| > 0 && (channel[0] == 'C' || channel[0] == 'G')
  }

  /**
   * The command text the bot reads from a message, or None when it ignores
   * the message: not a chat message, its own message, no string channel, or a
   * shared channel message not starting with the mention. The first
   * occurrence of `<@botid>: ` anywhere in the text is removed.
   */
  function CommandText(msg: Message, botId: string): (r: Option<string>)
    ensures r.Some? ==> IsChatMessage(msg) && !IsFromKnockKnockBot(msg, botId) && msg.channel.Some?
    ensures r.Some? && IsSharedChannel(msg.channel.value) ==> StartsWith(msg.text, Mention(botId))
  {
    if !IsChatMessage(msg) || IsFromKnockKnockBot(msg, botId) || msg.channel.None? then None
    else if IsSharedChannel(msg.channel.value) && !StartsWith(msg.text, Mention(botId)) then None
    else Some(ReplaceFirst(msg.text, Mention(botId) + " ", ""))
  }

  /** The bot never answers its own messages, and answers in a shared channel only when addressed. */
  lemma {:induction false} IgnoredMessages(msg: Message, botId: string)
    ensures IsFromKnockKnockBot(msg, botId) ==> CommandText(msg, botId).None?
    ensures CommandText(msg, botId).Some? && IsSharedChannel(msg.channel.value) ==> StartsWith(msg.text, Mention(botId))
    ensures CommandText(msg, botId).Some? <==>
      IsChatMessage(msg) && !IsFromKnockKnockBot(msg, botId) && msg.channel.Some? &&
      (IsSharedChannel(msg.channel.value) ==> StartsWith(msg.text, Mention(botId)))
  {
  }

  /** A message addressed to the bot, in any channel, yields exactly the text after `<@botid>: `. */
  lemma {:induction false} AddressedCommand(msg: Message, botId: string, command: string)
    requires msg.kind == "message" && msg.user != botId && msg.channel.Some?
    requires msg.text == Mention(botId) + " " + command
    ensures CommandText(msg, botId) == Some(command)
  {
    var pat := Mention(botId) + " ";
    assert StartsWith(msg.text, Mention(botId)) by {
      assert msg.text[..|Mention(botId)|] == Mention(botId);
    }
    assert StartsWith(msg.text, pat) by {
      assert msg.text[..|pat|] == pat;
    }
    ReplaceLeadingPattern(msg.text, pat);
    assert msg.text[|pat|..] == command;
  }

  /** A direct message with the mention in the middle has that first mention removed, wherever it stands. */
  lemma DirectCommandInnerMention(msg: Message, botId: string, before: string, after: string)
    requires IsChatMessage(msg) && msg.user != botId && msg.channel.Some?
    requires !IsSharedChannel(msg.channel.value)
    requires msg.text == before + Mention(botId) + " " + after
    requires forall j: nat :: j < |before| ==> !OccursAt(msg.text, Mention(botId) + " ", j)
    ensures CommandText(msg, botId) == Some(before + after)
  {
    var pat := Mention(botId) + " ";
    assert msg.text == before + pat + after;
    assert msg.text[|before|..|before| + |pat|] == pat;
    assert OccursAt(msg.text, pat, |before|);
    assert msg.text[..|before|] == before && msg.text[|before| + |pat|..] == after;
    assert ReplaceFirst(msg.text, pat, "") == msg.text[..|before|] + "" + msg.text[|before| + |pat|..];
    assert before + "" + after == before + after;
  }

  /** A direct message that never mentions the bot is read as it is. */
  lemma {:induction false} DirectCommand(msg: Message, botId: string)
    requires IsChatMessage(msg) && msg.user != botId && msg.channel.Some?
    requires !IsSharedChannel(msg.channel.value)
    requires forall j :: 0 <= j <= |msg.text| ==> !OccursAt(msg.text, Mention(botId) + " ", j)
    ensures CommandText(msg, botId) == Some(msg.text)
  {
    ReplaceAbsentPattern(msg.text, Mention(botId) + " ");
  }
}
