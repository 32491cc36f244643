/**
 * Recovery when a bot's chat turns out to be unknown to the executing
 * account: recognise the "channel not found" error text, export an invite
 * link with the bot and let the account join with it, recording a failure
 * line for the caller otherwise. The two remote steps are oracles from
 * their arguments to their replies.
 */
module BotChannelJoinRetryHelper {
  import opened Wrappers
  import Text
  import opened Entities

  const ChannelToken: string := "Channel"
  const NotFoundToken: string := "not found"

  /** `LooksLikeChannelNotFound`: a non-blank message containing both tokens, ignoring case. */
  function LooksLikeChannelNotFound(message: Option<string>): (r: bool)
    ensures Text.IsNullOrWhiteSpace(message) ==> !r
  {
    if Text.IsNullOrWhiteSpace(message) then false
    else Text.ContainsIgnoreCase(message.value, ChannelToken) && Text.ContainsIgnoreCase(message.value, NotFoundToken)
  }

  /** The blank check never decides alone: the classifier is exactly "both tokens occur", ignoring case. */
  lemma ChannelNotFoundIffBothTokens(message: Option<string>)
    ensures LooksLikeChannelNotFound(message) <==>
      message.Some? && Text.ContainsIgnoreCase(message.value, ChannelToken)
        && Text.ContainsIgnoreCase(message.value, NotFoundToken)
  {
    if message.Some? && Text.ContainsIgnoreCase(message.value, ChannelToken) {
      var m := message.value;
      var u := Text.ToUpper(m);
      var t := Text.ToUpper(ChannelToken);
      var i :| 0 <= i <= |u| - |t| && Text.OccursAt(u, t, i);
      assert u[i] == t[0] == 'C';
      assert !Text.IsWhiteSpace(m[i]);
    }
  }

  /** `Contains` at a known position. */
  lemma ContainsAt(s: string, t: string, i: int)
    requires 0 <= i <= |s| - |t| && s[i..i + |t|] == t
    ensures Text.Contains(s, t)
  {
    assert Text.OccursAt(s, t, i);
  }

  /** A message built around both tokens, in any letter case, is recognised. */
  lemma RecognisedAround(m: string, a: string, w: string, b: string, c: string, v: string, d: string)
    requires m == a + w + b == c + v + d
    requires Text.EqualsIgnoreCase(w, ChannelToken) && Text.EqualsIgnoreCase(v, NotFoundToken)
    ensures LooksLikeChannelNotFound(Some(m))
  {
    Text.ContainsIgnoreCaseIn(a, w, b, ChannelToken);
    Text.ContainsIgnoreCaseIn(c, v, d, NotFoundToken);
    ChannelNotFoundIffBothTokens(Some(m));
  }

  /** The usual Telegram text and the other token order are recognised in any letter case. */
  lemma ChannelNotFoundInAnyCase(m: string)
    requires Text.EqualsIgnoreCase(m, "Channel not found") || Text.EqualsIgnoreCase(m, "not found: Channel")
    ensures LooksLikeChannelNotFound(Some(m))
  {
    if Text.EqualsIgnoreCase(m, "Channel not found") {
      var t := "Channel not found";
      assert |m| == |Text.ToUpper(m)| == |t|;
      Text.EqualsIgnoreCaseSlice(m, t, 0, 7);
      Text.EqualsIgnoreCaseSlice(m, t, 8, 17);
      assert t[0..7] == ChannelToken && t[8..17] == NotFoundToken;
      assert m == [] + m[0..7] + m[7..] == m[..8] + m[8..17] + m[17..];
      RecognisedAround(m, [], m[0..7], m[7..], m[..8], m[8..17], m[17..]);
    } else {
      var t := "not found: Channel";
      assert |m| == |Text.ToUpper(m)| == |t|;
      Text.EqualsIgnoreCaseSlice(m, t, 11, 18);
      Text.EqualsIgnoreCaseSlice(m, t, 0, 9);
      assert t[11..18] == ChannelToken && t[0..9] == NotFoundToken;
      assert m == m[..11] + m[11..18] + m[18..] == [] + m[0..9] + m[9..];
      RecognisedAround(m, m[..11], m[11..18], m[18..], [], m[0..9], m[9..]);
    }
  }

  /** A message with only one of the two tokens, ignoring case, is not recognised. */
  lemma OneTokenIsNotEnough(m: string)
    requires Text.ContainsIgnoreCase(m, ChannelToken) != Text.ContainsIgnoreCase(m, NotFoundToken)
    ensures !LooksLikeChannelNotFound(Some(m))
  {
  }

  /** "Chat not found" carries only the second token, and is not recognised. */
  lemma ChatNotFoundIsNearMiss()
    ensures Text.ContainsIgnoreCase("Chat not found", NotFoundToken)
    ensures !LooksLikeChannelNotFound(Some("Chat not found"))
  {
    Text.NotContainsIgnoreCaseWithout("Chat not found", ChannelToken, 6);
    assert "Chat not found" == "Chat " + "not found" + "";
    Text.ContainsIgnoreCaseIn("Chat ", "not found", "", NotFoundToken);
  }

  /** "Channel is private" carries only the first token, and is not recognised. */
  lemma PrivateChannelIsNearMiss()
    ensures Text.ContainsIgnoreCase("Channel is private", ChannelToken)
    ensures !LooksLikeChannelNotFound(Some("Channel is private"))
  {
    Text.NotContainsIgnoreCaseWithout("Channel is private", NotFoundToken, 4);
    assert "Channel is private" == "" + "Channel" + " is private";
    Text.ContainsIgnoreCaseIn("", "Channel", " is private", ChannelToken);
  }

  // ------------------------------------------------------------- rejoin

  /** The reply of `ExportInviteLinkAsync`. */
  datatype ExportReply = Exported(link: string) | ExportThrew(message: string)

  /** The reply of `JoinChatOrChannelAsync`: success, a reported failure with its (possibly null) error, or an exception. */
  datatype JoinReply = Joined | JoinFailed(error: Option<string>) | JoinThrew(message: string)

  const FailureSeparator: string := "：执行账号尝试加入频道失败："

  /** `$"{channel.Title}：执行账号尝试加入频道失败：{error}"`; a null error renders as nothing. */
  function FailureEntry(title: string, error: string): (e: string)
    ensures title <= e
    ensures Text.Contains(e, error)
    ensures |e| == |title| + |FailureSeparator| + |error|
  {
    var e := title + FailureSeparator + error;
    ContainsAt(e, error, |title| + |FailureSeparator|);
    e
  }

  /** The failure line the two steps leave, if any. */
  function JoinFailure(botId: int, accountId: int, channel: BotChannel,
                       exportLink: (int, int) -> ExportReply, joinChat: (int, string) -> JoinReply): Option<string>
  {
    match exportLink(botId, channel.telegramId)
    case ExportThrew(msg) => Some(FailureEntry(channel.title, msg))
    case Exported(link) =>
      match joinChat(accountId, link)
      case Joined => None
      case JoinFailed(err) => Some(FailureEntry(channel.title, err.GetOr("")))
      case JoinThrew(msg) => Some(FailureEntry(channel.title, msg))
  }

  /** The caller's list of failure lines, which the helper appends to. */
  class FailureList {
    var entries: seq<string>

    constructor ()
      ensures entries == []
    {
      entries := [];
    }

    method Add(line: string)
      modifies this
      ensures entries == old(entries) + [line]
    {
      entries := entries + [line];
    }
  }

  /**
   * `TryJoinChannelAsync`: true exactly when the account joined with the
   * link exported for this bot and chat; otherwise false and exactly one
   * failure line appended, which names the channel and carries the error.
   */
  method TryJoinChannel(botId: int, accountId: int, channel: BotChannel, failures: FailureList,
                        exportLink: (int, int) -> ExportReply, joinChat: (int, string) -> JoinReply)
    returns (ok: bool)
    modifies failures
    ensures ok <==> exportLink(botId, channel.telegramId).Exported?
                    && joinChat(accountId, exportLink(botId, channel.telegramId).link).Joined?
    ensures var f := JoinFailure(botId, accountId, channel, exportLink, joinChat);
      failures.entries == old(failures.entries) + (if f.Some? then [f.value] else [])
    ensures ok <==> failures.entries == old(failures.entries)
  {
    var exported := exportLink(botId, channel.telegramId);
    if exported.ExportThrew? {
      failures.Add(FailureEntry(channel.title, exported.message));
      return false;
    }
    var link := exported.link;
    var reply := joinChat(accountId, link);
    if reply.JoinThrew? {
      failures.Add(FailureEntry(channel.title, reply.message));
      return false;
    }
    if !reply.Joined? {
      failures.Add(FailureEntry(channel.title, reply.error.GetOr("")));
      return false;
    }
    return true;
  }

  /** The outcome's line: present exactly when the join did not succeed, starting with the title and carrying the error. */
  lemma JoinFailureShape(botId: int, accountId: int, channel: BotChannel,
                         exportLink: (int, int) -> ExportReply, joinChat: (int, string) -> JoinReply)
    ensures var f := JoinFailure(botId, accountId, channel, exportLink, joinChat);
      var x := exportLink(botId, channel.telegramId);
      && (f.None? <==> x.Exported? && joinChat(accountId, x.link).Joined?)
      && (f.Some? ==> channel.title + FailureSeparator <= f.value)
      && (x.ExportThrew? ==> f == Some(channel.title + FailureSeparator + x.message))
      && (x.Exported? && joinChat(accountId, x.link).JoinThrew? ==>
            f == Some(channel.title + FailureSeparator + joinChat(accountId, x.link).message))
      && (x.Exported? && joinChat(accountId, x.link).JoinFailed? ==>
            f == Some(channel.title + FailureSeparator + joinChat(accountId, x.link).error.GetOr("")))
  {
  }
}
