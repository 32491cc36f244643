/**
 * The `/api/kick` endpoint: the API-key check, the choice of the kick
 * definition, the expansion of its scope into (bot, chats) groups, and the
 * fan-out of one ban call per group with its per-chat report.
 *
 * The store reads are data (`allBots`, `chatsOf`), the remote ban call is
 * an oracle `ban` from the call to its reply, and the request's
 * cancellation token is an oracle `cancelled` from the number of
 * cancellation checks made so far to whether cancellation has been
 * requested at that check. The resolver makes checks 0, 1, ... (one per
 * candidate bot); the fan-out continues the numbering (one per group).
 */
module KickApi {
  import opened Wrappers
  import Text
  import Utf8
  import Seqs
  import Sorting
  import opened Entities
  import opened ExternalApiModels

  // ---------------------------------------------------------------- key check

  /**
   * `FixedTimeEquals`: both keys are trimmed; an empty key never matches;
   * UTF-8 encodings of different lengths do not match; otherwise the
   * encodings are compared byte for byte.
   */
  function FixedTimeEquals(expected: string, provided: string): (r: bool)
    ensures r <==> Text.Trim(expected) != [] && Text.Trim(expected) == Text.Trim(provided)
  {
    var e := Text.Trim(expected);
    var p := Text.Trim(provided);
    if |e| == 0 || |p| == 0 then false
    else
      var a := Utf8.Encode(e);
      var b := Utf8.Encode(p);
      if |a| != |b| then false
      else if a == b then Utf8.EncodeInjective(e, p); true
      else false
  }

  /** Surrounding white space on the caller's side does not matter. */
  lemma SurroundingWhiteSpaceIgnored(key: string, before: string, after: string)
    requires Text.IsBlank(before) && Text.IsBlank(after)
    ensures FixedTimeEquals(key, before + key + after) == (Text.Trim(key) != [])
  {
    Text.TrimSurrounded(before, key, after);
  }

  /**
   * The comparison is case-sensitive: upper-casing any lower-case letter of
   * a configured key gives a key equal to it ignoring case that no longer
   * matches, although the key itself does.
   */
  lemma KeyComparisonIsCaseSensitive(key: string, i: int)
    requires Text.Trim(key) == key && 0 <= i < |key| && 'a' <= key[i] <= 'z'
    ensures var other := key[i := Text.ToUpperChar(key[i])];
      && Text.EqualsIgnoreCase(key, other)
      && FixedTimeEquals(key, key)
      && !FixedTimeEquals(key, other)
  {
    Text.UpperOneLetter(key, i);
  }

  // ------------------------------------------------------- definition choice

  predicate IsKickType(d: ExternalApiDefinition) {
    Text.EqualsIgnoreCase(d.apiType, Kick)
  }

  datatype AuthOutcome =
    | Matched(definition: ExternalApiDefinition)
    | NoneEnabled   // no enabled kick definition: the endpoint answers 404
    | NoKeyMatched  // some are enabled, none has this key: 401

  /** `kickApis.FirstOrDefault(...)`, and which failure answers when it finds none. */
  function Authenticate(apis: seq<ExternalApiDefinition>, providedKey: string): AuthOutcome {
    var kickApis := Seqs.Filter(apis, IsKickType);
    var matched := Seqs.FirstWhere(kickApis, KeyMatches(providedKey));
    if matched.Some? then Matched(matched.value)
    else if forall i | 0 <= i < |kickApis| :: !kickApis[i].enabled then NoneEnabled
    else NoKeyMatched
  }

  function KeyMatches(providedKey: string): ExternalApiDefinition -> bool {
    (a: ExternalApiDefinition) => a.enabled && FixedTimeEquals(a.apiKey, providedKey)
  }

  function Accepts(providedKey: string): ExternalApiDefinition -> bool {
    (a: ExternalApiDefinition) => IsKickType(a) && a.enabled && FixedTimeEquals(a.apiKey, providedKey)
  }

  /**
   * The matched definition is the first kick definition that is enabled
   * and whose key matches; with none, NoneEnabled when no kick definition
   * is enabled at all (also when there are none), otherwise NoKeyMatched.
   */
  lemma AuthenticateFacts(apis: seq<ExternalApiDefinition>, providedKey: string)
    ensures var r := Authenticate(apis, providedKey);
      r.Matched? ==>
        exists i :: 0 <= i < |apis| && apis[i] == r.definition
          && IsKickType(apis[i]) && apis[i].enabled && FixedTimeEquals(apis[i].apiKey, providedKey)
          && forall j :: 0 <= j < i ==>
               !(IsKickType(apis[j]) && apis[j].enabled && FixedTimeEquals(apis[j].apiKey, providedKey))
    ensures Authenticate(apis, providedKey).Matched? <==>
      exists i :: 0 <= i < |apis| && IsKickType(apis[i]) && apis[i].enabled && FixedTimeEquals(apis[i].apiKey, providedKey)
    ensures Authenticate(apis, providedKey).NoneEnabled? <==>
      forall i :: 0 <= i < |apis| && IsKickType(apis[i]) ==> !apis[i].enabled
  {
    var kickApis := Seqs.Filter(apis, IsKickType);
    Seqs.FirstWhereFilter(apis, IsKickType, KeyMatches(providedKey), Accepts(providedKey));
    Seqs.FilterKeeps(apis, IsKickType);
  }

  /** A freshly created definition is disabled and keyless, so on its own it keeps the endpoint hidden. */
  lemma NewDefinitionKeepsEndpointHidden(id: string, providedKey: string)
    ensures Authenticate([NewExternalApiDefinition(id)], providedKey) == NoneEnabled
    ensures !FixedTimeEquals(NewExternalApiDefinition(id).apiKey, providedKey)
  {
    assert Text.Trim("") == [];
  }

  // ------------------------------------------------------------------ scope

  datatype KickRequest = KickRequest(userId: int, permanentBan: Option<bool>)

  /** What the matched definition and the request decide before resolution. */
  datatype Scope = Scope(permanentBan: bool, botId: int, useAllChats: bool, chatSet: set<int>)

  /**
   * The caller's `permanent_ban` wins when present, else the definition's
   * default; bot id 0 forces all chats; chat id 0 is dropped.
   */
  function ScopeOf(d: ExternalApiDefinition, request: KickRequest): (s: Scope)
    ensures s.permanentBan == if request.permanentBan.Some? then request.permanentBan.value else d.kick.permanentBanDefault
    ensures s.botId == d.kick.botId
    ensures d.kick.botId == 0 ==> s.useAllChats
    ensures d.kick.botId != 0 ==> s.useAllChats == d.kick.useAllChats
    ensures 0 !in s.chatSet
    ensures forall i :: 0 <= i < |d.kick.chatIds| && d.kick.chatIds[i] != 0 ==> d.kick.chatIds[i] in s.chatSet
    ensures forall x :: x in s.chatSet ==> x in d.kick.chatIds
  {
    Scope(
      request.permanentBan.GetOr(d.kick.permanentBanDefault),
      d.kick.botId,
      if d.kick.botId == 0 then true else d.kick.useAllChats,
      set x | x in d.kick.chatIds && x != 0)
  }

  /** A new definition's scope: every bot, every chat, and a kick unless the caller asks for a ban. */
  lemma NewDefinitionScope(id: string, request: KickRequest)
    ensures var s := ScopeOf(NewExternalApiDefinition(id), request);
      s.botId == 0 && s.useAllChats && s.chatSet == {}
      && s.permanentBan == (request.permanentBan == Some(true))
  {
  }

  // ------------------------------------------------------- target resolution

  datatype TargetGroup = TargetGroup(bot: Bot, chats: seq<BotChannel>)
  datatype TargetResolution = TargetResolution(groups: seq<TargetGroup>, totalChats: int)
  datatype ResolveResult = Resolved(resolution: TargetResolution) | ResolveCancelled

  predicate IsActive(b: Bot) {
    b.isActive
  }

  predicate BotIdLe(a: Bot, b: Bot) {
    a.id <= b.id
  }

  function HasId(id: int): Bot -> bool {
    (b: Bot) => b.id == id
  }

  function InChatSet(chatSet: set<int>): BotChannel -> bool {
    (c: BotChannel) => c.telegramId in chatSet
  }

  /** The bots the resolver visits: active bots by ascending id, only the configured one when its id is positive. */
  function CandidateBots(allBots: seq<Bot>, configuredBotId: int): seq<Bot> {
    var active := Sorting.SortBy(Seqs.Filter(allBots, IsActive), BotIdLe);
    if configuredBotId > 0 then Seqs.Filter(active, HasId(configuredBotId)) else active
  }

  /** The chats of one bot after the chat filter, which applies only to an explicit, non-empty chat set. */
  function ChatsFor(chats: seq<BotChannel>, useAllChats: bool, chatSet: set<int>): seq<BotChannel> {
    if !useAllChats && |chatSet| > 0 then Seqs.Filter(chats, InChatSet(chatSet)) else chats
  }

  /** One group per visited bot with at least one chat, in visiting order. */
  function GroupsOf(bots: seq<Bot>, chatsOf: int -> seq<BotChannel>, useAllChats: bool, chatSet: set<int>): seq<TargetGroup> {
    if bots == [] then []
    else
      var init := GroupsOf(bots[..|bots| - 1], chatsOf, useAllChats, chatSet);
      var bot := bots[|bots| - 1];
      var chats := ChatsFor(chatsOf(bot.id), useAllChats, chatSet);
      if chats == [] then init else init + [TargetGroup(bot, chats)]
  }

  /** The number of chats across the groups. */
  function TotalChats(groups: seq<TargetGroup>): nat {
    if groups == [] then 0 else |groups[0].chats| + TotalChats(groups[1..])
  }

  lemma {:induction false} TotalChatsAppend(groups: seq<TargetGroup>, g: TargetGroup)
    ensures TotalChats(groups + [g]) == TotalChats(groups) + |g.chats|
  {
    if groups != [] {
      assert (groups + [g])[1..] == groups[1..] + [g];
      TotalChatsAppend(groups[1..], g);
    }
  }

  /** What `ResolveTargetsAsync` computes. */
  function Resolve(allBots: seq<Bot>, chatsOf: int -> seq<BotChannel>, configuredBotId: int,
                   useAllChats: bool, chatSet: set<int>, cancelled: nat -> bool): ResolveResult
  {
    ResolveFrom(CandidateBots(allBots, configuredBotId), chatsOf, useAllChats, chatSet, cancelled)
  }

  /** The visit of the candidate bots: cancelled when some check before a bot saw it, else their groups. */
  function ResolveFrom(bots: seq<Bot>, chatsOf: int -> seq<BotChannel>,
                       useAllChats: bool, chatSet: set<int>, cancelled: nat -> bool): ResolveResult
  {
    if exists k | 0 <= k < |bots| :: cancelled(k) then ResolveCancelled
    else
      var groups := GroupsOf(bots, chatsOf, useAllChats, chatSet);
      Resolved(TargetResolution(groups, TotalChats(groups)))
  }

  lemma ResolveCancelledAt(allBots: seq<Bot>, chatsOf: int -> seq<BotChannel>, configuredBotId: int,
                           useAllChats: bool, chatSet: set<int>, cancelled: nat -> bool, k: nat)
    requires k < |CandidateBots(allBots, configuredBotId)| && cancelled(k)
    ensures Resolve(allBots, chatsOf, configuredBotId, useAllChats, chatSet, cancelled) == ResolveCancelled
  {
  }

  lemma ResolveCompleted(allBots: seq<Bot>, chatsOf: int -> seq<BotChannel>, configuredBotId: int,
                         useAllChats: bool, chatSet: set<int>, cancelled: nat -> bool)
    requires forall k :: 0 <= k < |CandidateBots(allBots, configuredBotId)| ==> !cancelled(k)
    ensures var groups := GroupsOf(CandidateBots(allBots, configuredBotId), chatsOf, useAllChats, chatSet);
      Resolve(allBots, chatsOf, configuredBotId, useAllChats, chatSet, cancelled) == Resolved(TargetResolution(groups, TotalChats(groups)))
  {
  }

  /**
   * `ResolveTargetsAsync`: the active bots by id, narrowed to the
   * configured bot when there is one, then visited in order.
   * `checks` is the number of cancellation checks it made.
   */
  method ResolveTargets(allBots: seq<Bot>, chatsOf: int -> seq<BotChannel>, configuredBotId: int,
                        useAllChats: bool, chatSet: set<int>, cancelled: nat -> bool)
    returns (r: ResolveResult, checks: nat)
    ensures r == Resolve(allBots, chatsOf, configuredBotId, useAllChats, chatSet, cancelled)
    ensures r.Resolved? ==> checks == |CandidateBots(allBots, configuredBotId)|
  {
    var bots := Seqs.Filter(allBots, IsActive);
    bots := Sorting.SortBy(bots, BotIdLe);
    if configuredBotId > 0 {
      bots := Seqs.Filter(bots, HasId(configuredBotId));
    }
    assert bots == CandidateBots(allBots, configuredBotId);
    r, checks := VisitBots(bots, chatsOf, useAllChats, chatSet, cancelled);
  }

  /**
   * The loop of `ResolveTargetsAsync`: checks for cancellation before each
   * bot and keeps each bot whose filtered chats are not empty.
   */
  method VisitBots(bots: seq<Bot>, chatsOf: int -> seq<BotChannel>,
                   useAllChats: bool, chatSet: set<int>, cancelled: nat -> bool)
    returns (r: ResolveResult, checks: nat)
    ensures r == ResolveFrom(bots, chatsOf, useAllChats, chatSet, cancelled)
    ensures r.Resolved? ==> checks == |bots|
  {
    var groups: seq<TargetGroup> := [];
    var totalChats := 0;
    var i := 0;
    while i < |bots|
      invariant 0 <= i <= |bots|
      invariant forall k :: 0 <= k < i ==> !cancelled(k)
      invariant groups == GroupsOf(bots[..i], chatsOf, useAllChats, chatSet)
      invariant totalChats == TotalChats(groups)
    {
      if cancelled(i) {
        ResolveFromCancelled(bots, chatsOf, useAllChats, chatSet, cancelled, i);
        return ResolveCancelled, i + 1;
      }
      var bot := bots[i];
      // the bot's chats, narrowed to the chat set when one applies
      var chats := ChatsFor(chatsOf(bot.id), useAllChats, chatSet);
      GroupsOfStep(bots, i, chatsOf, useAllChats, chatSet);
      if |chats| != 0 {
        TotalChatsAppend(groups, TargetGroup(bot, chats));
        groups := groups + [TargetGroup(bot, chats)];
        totalChats := totalChats + |chats|;
      }
      i := i + 1;
    }
    assert bots[..i] == bots;
    ResolveFromCompleted(bots, chatsOf, useAllChats, chatSet, cancelled);
    return Resolved(TargetResolution(groups, totalChats)), i;
  }

  lemma ResolveFromCancelled(bots: seq<Bot>, chatsOf: int -> seq<BotChannel>,
                             useAllChats: bool, chatSet: set<int>, cancelled: nat -> bool, k: nat)
    requires k < |bots| && cancelled(k)
    ensures ResolveFrom(bots, chatsOf, useAllChats, chatSet, cancelled) == ResolveCancelled
  {
  }

  lemma ResolveFromCompleted(bots: seq<Bot>, chatsOf: int -> seq<BotChannel>,
                             useAllChats: bool, chatSet: set<int>, cancelled: nat -> bool)
    requires forall k :: 0 <= k < |bots| ==> !cancelled(k)
    ensures var groups := GroupsOf(bots, chatsOf, useAllChats, chatSet);
      ResolveFrom(bots, chatsOf, useAllChats, chatSet, cancelled) == Resolved(TargetResolution(groups, TotalChats(groups)))
  {
  }

  /** A resolved group: a visited bot with its filtered chats, which are not empty. */
  predicate GroupOf(g: TargetGroup, bots: seq<Bot>, chatsOf: int -> seq<BotChannel>, useAllChats: bool, chatSet: set<int>) {
    && g.bot in bots
    && g.chats != []
    && g.chats == ChatsFor(chatsOf(g.bot.id), useAllChats, chatSet)
  }

  /** Visiting one more bot adds its group when its filtered chats are not empty. */
  lemma GroupsOfStep(bots: seq<Bot>, i: int, chatsOf: int -> seq<BotChannel>, useAllChats: bool, chatSet: set<int>)
    requires 0 <= i < |bots|
    ensures var c := ChatsFor(chatsOf(bots[i].id), useAllChats, chatSet);
      GroupsOf(bots[..i + 1], chatsOf, useAllChats, chatSet) ==
        if c == [] then GroupsOf(bots[..i], chatsOf, useAllChats, chatSet)
        else GroupsOf(bots[..i], chatsOf, useAllChats, chatSet) + [TargetGroup(bots[i], c)]
  {
    assert bots[..i + 1][..i] == bots[..i];
  }

  lemma {:induction false} GroupsOfFacts(bots: seq<Bot>, chatsOf: int -> seq<BotChannel>, useAllChats: bool, chatSet: set<int>)
    ensures forall k :: 0 <= k < |GroupsOf(bots, chatsOf, useAllChats, chatSet)| ==>
      GroupOf(GroupsOf(bots, chatsOf, useAllChats, chatSet)[k], bots, chatsOf, useAllChats, chatSet)
  {
    if bots != [] {
      var init := bots[..|bots| - 1];
      var last := bots[|bots| - 1];
      var gi := GroupsOf(init, chatsOf, useAllChats, chatSet);
      var groups := GroupsOf(bots, chatsOf, useAllChats, chatSet);
      GroupsOfFacts(init, chatsOf, useAllChats, chatSet);
      var chats := ChatsFor(chatsOf(last.id), useAllChats, chatSet);
      assert groups == if chats == [] then gi else gi + [TargetGroup(last, chats)];
      forall k | 0 <= k < |groups| ensures GroupOf(groups[k], bots, chatsOf, useAllChats, chatSet) {
        if k < |gi| {
          assert GroupOf(gi[k], init, chatsOf, useAllChats, chatSet);
          var m :| 0 <= m < |init| && init[m] == gi[k].bot;
          assert bots[m] == init[m];
        }
      }
    }
  }

  /** A visited bot whose filtered chats are empty contributes no group at all; every other one contributes one. */
  lemma {:induction false} GroupsOfMembership(bots: seq<Bot>, chatsOf: int -> seq<BotChannel>, useAllChats: bool, chatSet: set<int>, b: Bot)
    requires b in bots
    ensures var groups := GroupsOf(bots, chatsOf, useAllChats, chatSet);
      (exists k :: 0 <= k < |groups| && groups[k].bot == b)
        <==> ChatsFor(chatsOf(b.id), useAllChats, chatSet) != []
  {
    var groups := GroupsOf(bots, chatsOf, useAllChats, chatSet);
    var init := bots[..|bots| - 1];
    var last := bots[|bots| - 1];
    var gi := GroupsOf(init, chatsOf, useAllChats, chatSet);
    var chats := ChatsFor(chatsOf(last.id), useAllChats, chatSet);
    assert groups == if chats == [] then gi else gi + [TargetGroup(last, chats)];
    GroupsOfFacts(bots, chatsOf, useAllChats, chatSet);
    if ChatsFor(chatsOf(b.id), useAllChats, chatSet) == [] {
      forall k | 0 <= k < |groups| ensures groups[k].bot != b {
        assert GroupOf(groups[k], bots, chatsOf, useAllChats, chatSet);
      }
    } else if b in init {
      GroupsOfMembership(init, chatsOf, useAllChats, chatSet, b);
      var k :| 0 <= k < |gi| && gi[k].bot == b;
      assert groups[k] == gi[k];
    } else {
      assert bots == init + [last];
      assert b == last;
      assert groups[|groups| - 1].bot == b;
    }
  }

  /** Groups in ascending bot id order. */
  predicate GroupsSorted(groups: seq<TargetGroup>) {
    forall i, j :: 0 <= i < j < |groups| ==> groups[i].bot.id <= groups[j].bot.id
  }

  lemma {:induction false} GroupsOfSorted(bots: seq<Bot>, chatsOf: int -> seq<BotChannel>, useAllChats: bool, chatSet: set<int>)
    requires Sorting.SortedBy(bots, BotIdLe)
    ensures GroupsSorted(GroupsOf(bots, chatsOf, useAllChats, chatSet))
  {
    if bots != [] {
      var init := bots[..|bots| - 1];
      var last := bots[|bots| - 1];
      var groups := GroupsOf(bots, chatsOf, useAllChats, chatSet);
      var gi := GroupsOf(init, chatsOf, useAllChats, chatSet);
      var chats := ChatsFor(chatsOf(last.id), useAllChats, chatSet);
      assert groups == if chats == [] then gi else gi + [TargetGroup(last, chats)];
      assert Sorting.SortedBy(init, BotIdLe);
      GroupsOfSorted(init, chatsOf, useAllChats, chatSet);
      if chats != [] {
        GroupsOfFacts(init, chatsOf, useAllChats, chatSet);
        forall i, j | 0 <= i < j < |groups| ensures groups[i].bot.id <= groups[j].bot.id {
          if j == |gi| {
            assert groups[j].bot == last && groups[i] == gi[i];
            assert GroupOf(gi[i], init, chatsOf, useAllChats, chatSet);
            var m :| 0 <= m < |init| && init[m] == gi[i].bot;
            assert BotIdLe(bots[m], bots[|bots| - 1]);
            assert bots[m] == gi[i].bot;
          } else {
            assert groups[i] == gi[i] && groups[j] == gi[j];
            assert gi[i].bot.id <= gi[j].bot.id;
          }
        }
      }
    }
  }

  /** A bot is visited exactly when it is active and, with a positive configured id, has that id. */
  lemma CandidateMember(allBots: seq<Bot>, configuredBotId: int, b: Bot)
    ensures b in CandidateBots(allBots, configuredBotId) <==>
      b in allBots && b.isActive && (configuredBotId > 0 ==> b.id == configuredBotId)
  {
    var active := Seqs.Filter(allBots, IsActive);
    Seqs.FilterMember(allBots, IsActive, b);
    Sorting.SortMembers(active, BotIdLe, b);
    if configuredBotId > 0 {
      Seqs.FilterMember(Sorting.SortBy(active, BotIdLe), HasId(configuredBotId), b);
    }
  }

  /** The visited bots are in ascending id order. */
  lemma CandidatesSorted(allBots: seq<Bot>, configuredBotId: int)
    ensures Sorting.SortedBy(CandidateBots(allBots, configuredBotId), BotIdLe)
  {
    var active := Seqs.Filter(allBots, IsActive);
    Sorting.SortSorted(active, BotIdLe);
    if configuredBotId > 0 {
      Sorting.FilterKeepsSorted(Sorting.SortBy(active, BotIdLe), BotIdLe, HasId(configuredBotId));
    }
  }

  lemma CandidateFacts(allBots: seq<Bot>, configuredBotId: int)
    ensures var bots := CandidateBots(allBots, configuredBotId);
      && Sorting.SortedBy(bots, BotIdLe)
      && (forall b :: b in bots ==> b in allBots && b.isActive)
      && (forall b :: b in bots && configuredBotId > 0 ==> b.id == configuredBotId)
      && (forall b :: b in allBots && b.isActive && (configuredBotId > 0 ==> b.id == configuredBotId) ==> b in bots)
  {
    CandidatesSorted(allBots, configuredBotId);
    forall b ensures b in CandidateBots(allBots, configuredBotId) <==>
      b in allBots && b.isActive && (configuredBotId > 0 ==> b.id == configuredBotId)
    {
      CandidateMember(allBots, configuredBotId, b);
    }
  }

  /**
   * The resolution rules. Groups are active bots in ascending id order,
   * only the configured bot when its id is positive; a group's chats are
   * that bot's chats, filtered only for an explicit non-empty chat set;
   * every group is non-empty; an eligible bot with no chat left has no
   * group; and `totalChats` is the sum of the group sizes.
   */
  lemma ResolutionRules(allBots: seq<Bot>, chatsOf: int -> seq<BotChannel>, configuredBotId: int,
                        useAllChats: bool, chatSet: set<int>, cancelled: nat -> bool)
    requires Resolve(allBots, chatsOf, configuredBotId, useAllChats, chatSet, cancelled).Resolved?
    ensures var t := Resolve(allBots, chatsOf, configuredBotId, useAllChats, chatSet, cancelled).resolution;
      && (forall k :: 0 <= k < |t.groups| ==>
            && t.groups[k].bot in allBots && t.groups[k].bot.isActive
            && (configuredBotId > 0 ==> t.groups[k].bot.id == configuredBotId)
            && t.groups[k].chats != []
            && t.groups[k].chats == ChatsFor(chatsOf(t.groups[k].bot.id), useAllChats, chatSet))
      && (forall i, j :: 0 <= i < j < |t.groups| ==> t.groups[i].bot.id <= t.groups[j].bot.id)
      && (forall b :: b in allBots && b.isActive && (configuredBotId > 0 ==> b.id == configuredBotId) ==>
            ((exists k :: 0 <= k < |t.groups| && t.groups[k].bot == b) <==> ChatsFor(chatsOf(b.id), useAllChats, chatSet) != []))
      && t.totalChats == TotalChats(t.groups)
  {
    var bots := CandidateBots(allBots, configuredBotId);
    CandidateFacts(allBots, configuredBotId);
    GroupsOfFacts(bots, chatsOf, useAllChats, chatSet);
    GroupsOfSorted(bots, chatsOf, useAllChats, chatSet);
    forall b | b in allBots && b.isActive && (configuredBotId > 0 ==> b.id == configuredBotId)
      ensures var groups := GroupsOf(bots, chatsOf, useAllChats, chatSet);
        (exists k :: 0 <= k < |groups| && groups[k].bot == b) <==> ChatsFor(chatsOf(b.id), useAllChats, chatSet) != []
    {
      GroupsOfMembership(bots, chatsOf, useAllChats, chatSet, b);
    }
  }

  /**
   * The chat filter: with an explicit, non-empty chat set every resolved
   * chat is in the set; otherwise every group holds all its bot's chats.
   */
  lemma ChatFilterRule(chats: seq<BotChannel>, useAllChats: bool, chatSet: set<int>)
    ensures !useAllChats && chatSet != {} ==>
      forall c :: c in ChatsFor(chats, useAllChats, chatSet) <==> c in chats && c.telegramId in chatSet
    ensures useAllChats || chatSet == {} ==> ChatsFor(chats, useAllChats, chatSet) == chats
  {
    if !useAllChats && chatSet != {} {
      assert |chatSet| > 0;
      var f := Seqs.Filter(chats, InChatSet(chatSet));
      Seqs.FilterKeeps(chats, InChatSet(chatSet));
      forall c ensures c in f <==> c in chats && c.telegramId in chatSet {
        if c in chats && c.telegramId in chatSet {
          var i :| 0 <= i < |chats| && chats[i] == c;
        }
      }
    }
  }

  /** Bot id 0 forces all chats: a definition for all bots ignores its chat list. */
  lemma AllBotsTakeAllChats(d: ExternalApiDefinition, request: KickRequest, chats: seq<BotChannel>)
    requires d.kick.botId == 0
    ensures var s := ScopeOf(d, request); ChatsFor(chats, s.useAllChats, s.chatSet) == chats
  {
  }

  // ----------------------------------------------------------------- fan-out

  /** One `BanChatMemberAsync` call. */
  datatype BanCall = BanCall(botId: int, chatIds: seq<int>, userId: int, permanentBan: bool)

  /** The reply of a ban call: per-chat error texts for the chats that failed, or an exception. */
  datatype BanReply = BanFailures(failures: map<int, string>) | BanThrew(error: string)

  datatype KickResultItem = KickResultItem(chatId: string, title: string, success: bool, error: Option<string>)
  datatype KickSummary = KickSummary(total: int, success: int, failed: int)
  datatype KickResponse = KickResponse(success: bool, message: string, summary: KickSummary, results: seq<KickResultItem>)

  /** The endpoint's answer; Cancelled and Faulted are the exceptions that leave `HandleAsync`. */
  datatype KickOutcome =
    | HttpNotFound
    | HttpUnauthorized
    | HttpBadRequest(response: KickResponse)
    | HttpOk(response: KickResponse)
    | Cancelled
    | Faulted(error: string)

  datatype Stop = Completed | StopCancelled | StopFaulted(error: string)

  /** The calls made, the items collected and how the fan-out ended. */
  datatype FanOut = FanOut(calls: seq<BanCall>, items: seq<KickResultItem>, stop: Stop)

  function ChatIds(chats: seq<BotChannel>): (ids: seq<int>)
    ensures |ids| == |chats| && forall k :: 0 <= k < |chats| ==> ids[k] == chats[k].telegramId
  {
    seq(|chats|, k requires 0 <= k < |chats| => chats[k].telegramId)
  }

  function CallFor(g: TargetGroup, userId: int, permanentBan: bool): BanCall {
    BanCall(g.bot.id, ChatIds(g.chats), userId, permanentBan)
  }

  /** The report item for one chat: a success exactly when the chat has no entry in the failure map. */
  function ItemFor(chat: BotChannel, failures: map<int, string>): (item: KickResultItem)
    ensures item.chatId == Text.DecimalString(chat.telegramId) && item.title == chat.title
    ensures item.success <==> chat.telegramId !in failures
    ensures item.error == if chat.telegramId in failures then Some(failures[chat.telegramId]) else None
  {
    var err := if chat.telegramId in failures then Some(failures[chat.telegramId]) else None;
    KickResultItem(Text.DecimalString(chat.telegramId), chat.title, err == None, err)
  }

  function GroupItems(chats: seq<BotChannel>, failures: map<int, string>): (items: seq<KickResultItem>)
    ensures |items| == |chats| && forall k :: 0 <= k < |chats| ==> items[k] == ItemFor(chats[k], failures)
  {
    seq(|chats|, k requires 0 <= k < |chats| => ItemFor(chats[k], failures))
  }

  /**
   * The fan-out loop from group 0 on, whose first cancellation check has
   * number `check`: per group a cancellation check, then one ban call, then
   * one item per chat. An exception from the ban call ends everything.
   */
  function FanOutFrom(groups: seq<TargetGroup>, userId: int, permanentBan: bool,
                      ban: BanCall -> BanReply, cancelled: nat -> bool, check: nat): FanOut
    decreases |groups|
  {
    if groups == [] then FanOut([], [], Completed)
    else if cancelled(check) then FanOut([], [], StopCancelled)
    else
      var call := CallFor(groups[0], userId, permanentBan);
      var reply := ban(call);
      if reply.BanThrew? then FanOut([call], [], StopFaulted(reply.error))
      else
        var rest := FanOutFrom(groups[1..], userId, permanentBan, ban, cancelled, check + 1);
        FanOut([call] + rest.calls, GroupItems(groups[0].chats, reply.failures) + rest.items, rest.stop)
  }

  predicate IsSuccess(item: KickResultItem) {
    item.success
  }

  predicate IsFailed(item: KickResultItem) {
    !item.success
  }

  const InvalidUserMessage: string := "user_id 无效"
  const NoTargetsMessage: string := "未配置任何可操作的频道/群组（请先在页面选择机器人与频道/群组）"

  /** `$"{actionText} user {userId} from {okCount}/{total} chats"`. */
  function OkMessage(permanentBan: bool, userId: int, okCount: int, total: int): string {
    (if permanentBan then "Banned" else "Kicked") + " user " + Text.DecimalString(userId)
      + " from " + Text.DecimalString(okCount) + "/" + Text.DecimalString(total) + " chats"
  }

  /** The 200 response: counts derived from the items, and success even when some chats failed. */
  function OkResponse(permanentBan: bool, userId: int, results: seq<KickResultItem>): (r: KickResponse)
    ensures r.success && r.results == results
    ensures r.summary.total == |results|
    ensures r.summary.success == |Seqs.Filter(results, IsSuccess)|
    ensures r.summary.failed == r.summary.total - r.summary.success
    ensures r.summary.failed == |Seqs.Filter(results, IsFailed)|
  {
    var okCount := Seqs.Count(results, IsSuccess);
    var total := |results|;
    Seqs.FilterPartition(results, IsSuccess, IsFailed);
    KickResponse(true, OkMessage(permanentBan, userId, okCount, total), KickSummary(total, okCount, total - okCount), results)
  }

  function FailureResponse(message: string): KickResponse {
    KickResponse(false, message, KickSummary(0, 0, 0), [])
  }

  /** What `HandleAsync` does: its answer and the ban calls it makes. */
  function Handle(apis: seq<ExternalApiDefinition>, providedKey: string, request: KickRequest,
                  allBots: seq<Bot>, chatsOf: int -> seq<BotChannel>,
                  ban: BanCall -> BanReply, cancelled: nat -> bool): (KickOutcome, seq<BanCall>)
  {
    match Authenticate(apis, providedKey)
    case NoneEnabled => (HttpNotFound, [])
    case NoKeyMatched => (HttpUnauthorized, [])
    case Matched(d) => HandleMatched(d, request, allBots, chatsOf, ban, cancelled)
  }

  /** What `HandleAsync` does once definition `d` matched the key. */
  function HandleMatched(d: ExternalApiDefinition, request: KickRequest,
                         allBots: seq<Bot>, chatsOf: int -> seq<BotChannel>,
                         ban: BanCall -> BanReply, cancelled: nat -> bool): (r: (KickOutcome, seq<BanCall>))
    ensures !r.0.HttpNotFound? && !r.0.HttpUnauthorized?
  {
    if request.userId <= 0 then (HttpBadRequest(FailureResponse(InvalidUserMessage)), [])
    else
      var s := ScopeOf(d, request);
      match Resolve(allBots, chatsOf, s.botId, s.useAllChats, s.chatSet, cancelled)
      case ResolveCancelled => (Cancelled, [])
      case Resolved(t) =>
        if t.totalChats == 0 then (HttpBadRequest(FailureResponse(NoTargetsMessage)), [])
        else
          var f := FanOutFrom(t.groups, request.userId, s.permanentBan, ban, cancelled,
                              |CandidateBots(allBots, s.botId)|);
          match f.stop
          case Completed => (HttpOk(OkResponse(s.permanentBan, request.userId, f.items)), f.calls)
          case StopCancelled => (Cancelled, f.calls)
          case StopFaulted(e) => (Faulted(e), f.calls)
  }

  /** Prepends the work the loop has done to what the rest of the loop does. */
  function After(calls: seq<BanCall>, items: seq<KickResultItem>, f: FanOut): FanOut {
    FanOut(calls + f.calls, items + f.items, f.stop)
  }

  /** The calls are those of the first groups, in order, each made after a check that saw no cancellation. */
  predicate CallsFollowGroups(f: FanOut, groups: seq<TargetGroup>, userId: int, permanentBan: bool,
                              cancelled: nat -> bool, check: nat) {
    && |f.calls| <= |groups|
    && forall k :: 0 <= k < |f.calls| ==>
         f.calls[k] == CallFor(groups[k], userId, permanentBan) && !cancelled(check + k)
  }

  /**
   * How the fan-out ended: completed after calling every group, all of
   * which returned; cancelled at the check before the next group; or
   * faulted by the last call, the only one that threw.
   */
  predicate StopFacts(f: FanOut, groups: seq<TargetGroup>, ban: BanCall -> BanReply, cancelled: nat -> bool, check: nat) {
    match f.stop
    case Completed =>
      |f.calls| == |groups| && forall k :: 0 <= k < |f.calls| ==> ban(f.calls[k]).BanFailures?
    case StopCancelled =>
      |f.calls| < |groups| && cancelled(check + |f.calls|)
      && forall k :: 0 <= k < |f.calls| ==> ban(f.calls[k]).BanFailures?
    case StopFaulted(e) =>
      0 < |f.calls| && ban(f.calls[|f.calls| - 1]) == BanThrew(e)
      && forall k :: 0 <= k < |f.calls| - 1 ==> ban(f.calls[k]).BanFailures?
  }

  /** One ban call per group reached, in group order, carrying that group's bot, chat ids and options. */
  lemma {:induction false} FanOutCalls(groups: seq<TargetGroup>, userId: int, permanentBan: bool,
                                       ban: BanCall -> BanReply, cancelled: nat -> bool, check: nat)
    ensures CallsFollowGroups(FanOutFrom(groups, userId, permanentBan, ban, cancelled, check),
                              groups, userId, permanentBan, cancelled, check)
    decreases |groups|
  {
    if groups != [] && !cancelled(check) {
      var call := CallFor(groups[0], userId, permanentBan);
      if ban(call).BanFailures? {
        var rest := FanOutFrom(groups[1..], userId, permanentBan, ban, cancelled, check + 1);
        FanOutCalls(groups[1..], userId, permanentBan, ban, cancelled, check + 1);
        var f := FanOutFrom(groups, userId, permanentBan, ban, cancelled, check);
        assert f.calls == [call] + rest.calls;
        forall k | 0 <= k < |f.calls|
          ensures f.calls[k] == CallFor(groups[k], userId, permanentBan) && !cancelled(check + k)
        {
          if k > 0 {
            assert f.calls[k] == rest.calls[k - 1];
            assert groups[1..][k - 1] == groups[k];
            assert (check + 1) + (k - 1) == check + k;
          }
        }
      }
    }
  }

  lemma {:induction false} FanOutStop(groups: seq<TargetGroup>, userId: int, permanentBan: bool,
                                      ban: BanCall -> BanReply, cancelled: nat -> bool, check: nat)
    ensures StopFacts(FanOutFrom(groups, userId, permanentBan, ban, cancelled, check), groups, ban, cancelled, check)
    decreases |groups|
  {
    if groups != [] && !cancelled(check) {
      var call := CallFor(groups[0], userId, permanentBan);
      if ban(call).BanFailures? {
        var rest := FanOutFrom(groups[1..], userId, permanentBan, ban, cancelled, check + 1);
        FanOutStop(groups[1..], userId, permanentBan, ban, cancelled, check + 1);
        var f := FanOutFrom(groups, userId, permanentBan, ban, cancelled, check);
        assert f.calls == [call] + rest.calls && f.stop == rest.stop;
        StopFactsCons(f, rest, call, groups, ban, cancelled, check);
      }
    }
  }

  /** A returned call in front of the rest of the loop keeps how the rest ended. */
  lemma StopFactsCons(f: FanOut, rest: FanOut, call: BanCall, groups: seq<TargetGroup>,
                      ban: BanCall -> BanReply, cancelled: nat -> bool, check: nat)
    requires groups != [] && ban(call).BanFailures?
    requires f.calls == [call] + rest.calls && f.stop == rest.stop
    requires StopFacts(rest, groups[1..], ban, cancelled, check + 1)
    ensures StopFacts(f, groups, ban, cancelled, check)
  {
    assert forall k :: 0 < k < |f.calls| ==> f.calls[k] == rest.calls[k - 1];
    if f.stop.StopCancelled? {
      assert (check + 1) + |rest.calls| == check + |f.calls|;
    }
  }

  /**
   * When every group's call returned, the report lists every resolved chat
   * once, group by group and in each group's order: the item for chat `c`
   * of group `k` sits after the chats of the groups before it, and reports
   * that chat against the failure map of group `k`'s call.
   */
  predicate ItemsLayout(items: seq<KickResultItem>, groups: seq<TargetGroup>, userId: int, permanentBan: bool,
                        ban: BanCall -> BanReply) {
    forall k, c :: 0 <= k < |groups| && 0 <= c < |groups[k].chats| ==> ItemAt(items, groups, userId, permanentBan, ban, k, c)
  }

  /** The item for chat `c` of group `k` is where the layout puts it. */
  predicate ItemAt(items: seq<KickResultItem>, groups: seq<TargetGroup>, userId: int, permanentBan: bool,
                   ban: BanCall -> BanReply, k: int, c: int)
    requires 0 <= k < |groups| && 0 <= c < |groups[k].chats|
  {
    && TotalChats(groups[..k]) + c < |items|
    && ban(CallFor(groups[k], userId, permanentBan)).BanFailures?
    && items[TotalChats(groups[..k]) + c]
       == ItemFor(groups[k].chats[c], ban(CallFor(groups[k], userId, permanentBan)).failures)
  }

  /** The chats before group `k` are the first group's and those before it among the rest. */
  lemma TotalChatsBefore(groups: seq<TargetGroup>, k: int)
    requires 0 < k <= |groups|
    ensures TotalChats(groups[..k]) == |groups[0].chats| + TotalChats(groups[1..][..k - 1])
  {
    assert groups[..k][1..] == groups[1..][..k - 1];
  }

  /** One position of the layout, for a group after the first. */
  lemma LayoutAtLater(head: seq<KickResultItem>, restItems: seq<KickResultItem>, groups: seq<TargetGroup>,
                      userId: int, permanentBan: bool, ban: BanCall -> BanReply, k: int, c: int)
    requires 0 < k < |groups| && 0 <= c < |groups[k].chats|
    requires |head| == |groups[0].chats|
    requires ItemAt(restItems, groups[1..], userId, permanentBan, ban, k - 1, c)
    ensures ItemAt(head + restItems, groups, userId, permanentBan, ban, k, c)
  {
    var rest := groups[1..];
    assert rest[k - 1] == groups[k];
    TotalChatsBefore(groups, k);
    var x := TotalChats(rest[..k - 1]) + c;
    assert (head + restItems)[|head| + x] == restItems[x];
  }

  /** One position of the layout, for the first group. */
  lemma LayoutAtFirst(head: seq<KickResultItem>, restItems: seq<KickResultItem>, groups: seq<TargetGroup>,
                      userId: int, permanentBan: bool, ban: BanCall -> BanReply, c: int)
    requires groups != [] && 0 <= c < |groups[0].chats|
    requires ban(CallFor(groups[0], userId, permanentBan)).BanFailures?
    requires head == GroupItems(groups[0].chats, ban(CallFor(groups[0], userId, permanentBan)).failures)
    ensures ItemAt(head + restItems, groups, userId, permanentBan, ban, 0, c)
  {
    assert groups[..0] == [];
    assert (head + restItems)[c] == head[c];
  }

  /** The first group's items in front of a layout of the other groups make a layout of all of them. */
  lemma LayoutCons(head: seq<KickResultItem>, restItems: seq<KickResultItem>, groups: seq<TargetGroup>,
                   userId: int, permanentBan: bool, ban: BanCall -> BanReply)
    requires groups != []
    requires ban(CallFor(groups[0], userId, permanentBan)).BanFailures?
    requires head == GroupItems(groups[0].chats, ban(CallFor(groups[0], userId, permanentBan)).failures)
    requires ItemsLayout(restItems, groups[1..], userId, permanentBan, ban)
    ensures ItemsLayout(head + restItems, groups, userId, permanentBan, ban)
  {
    var items := head + restItems;
    forall k, c | 0 <= k < |groups| && 0 <= c < |groups[k].chats|
      ensures ItemAt(items, groups, userId, permanentBan, ban, k, c)
    {
      if k == 0 {
        LayoutAtFirst(head, restItems, groups, userId, permanentBan, ban, c);
      } else {
        assert groups[1..][k - 1] == groups[k];
        LayoutAtLater(head, restItems, groups, userId, permanentBan, ban, k, c);
      }
    }
  }

  lemma {:induction false} FanOutItems(groups: seq<TargetGroup>, userId: int, permanentBan: bool,
                                       ban: BanCall -> BanReply, cancelled: nat -> bool, check: nat)
    requires FanOutFrom(groups, userId, permanentBan, ban, cancelled, check).stop.Completed?
    ensures |FanOutFrom(groups, userId, permanentBan, ban, cancelled, check).items| == TotalChats(groups)
    ensures ItemsLayout(FanOutFrom(groups, userId, permanentBan, ban, cancelled, check).items, groups, userId, permanentBan, ban)
    decreases |groups|
  {
    if groups != [] {
      var f := FanOutFrom(groups, userId, permanentBan, ban, cancelled, check);
      var reply := ban(CallFor(groups[0], userId, permanentBan));
      var rest := FanOutFrom(groups[1..], userId, permanentBan, ban, cancelled, check + 1);
      assert !cancelled(check) && reply.BanFailures?;
      FanOutItems(groups[1..], userId, permanentBan, ban, cancelled, check + 1);
      var head := GroupItems(groups[0].chats, reply.failures);
      assert f.items == head + rest.items;
      LayoutCons(head, rest.items, groups, userId, permanentBan, ban);
    }
  }

  lemma GroupItemsStep(chats: seq<BotChannel>, j: int, failures: map<int, string>)
    requires 0 <= j < |chats|
    ensures GroupItems(chats[..j + 1], failures) == GroupItems(chats[..j], failures) + [ItemFor(chats[j], failures)]
  {
  }

  /** One more group through the fan-out loop, when it is not cancelled and its ban call returns. */
  lemma FanOutStep(calls: seq<BanCall>, items: seq<KickResultItem>, groups: seq<TargetGroup>, i: int, userId: int,
                   permanentBan: bool, ban: BanCall -> BanReply, cancelled: nat -> bool, check: nat,
                   call: BanCall, items': seq<KickResultItem>)
    requires 0 <= i < |groups| && !cancelled(check + i)
    requires call == CallFor(groups[i], userId, permanentBan) && ban(call).BanFailures?
    requires items' == items + GroupItems(groups[i].chats, ban(call).failures)
    ensures After(calls, items, FanOutFrom(groups[i..], userId, permanentBan, ban, cancelled, check + i))
      == After(calls + [call], items', FanOutFrom(groups[i + 1..], userId, permanentBan, ban, cancelled, check + (i + 1)))
  {
    var g := GroupItems(groups[i].chats, ban(call).failures);
    var rest := FanOutFrom(groups[i + 1..], userId, permanentBan, ban, cancelled, check + (i + 1));
    assert groups[i..][0] == groups[i] && groups[i..][1..] == groups[i + 1..];
    assert FanOutFrom(groups[i..], userId, permanentBan, ban, cancelled, check + i)
      == FanOut([call] + rest.calls, g + rest.items, rest.stop);
    Seqs.ConcatAssoc(calls, [call], rest.calls);
    Seqs.ConcatAssoc(items, g, rest.items);
  }

  /** The inner loop of the fan-out: one report item per chat of the group, in order. */
  method AddGroupItems(results: seq<KickResultItem>, chats: seq<BotChannel>, failures: map<int, string>)
    returns (r: seq<KickResultItem>)
    ensures r == results + GroupItems(chats, failures)
  {
    r := results;
    var j := 0;
    while j < |chats|
      invariant 0 <= j <= |chats|
      invariant r == results + GroupItems(chats[..j], failures)
    {
      GroupItemsStep(chats, j, failures);
      r := r + [ItemFor(chats[j], failures)];
      j := j + 1;
    }
    assert chats[..j] == chats;
  }

  /**
   * The fan-out loop of `HandleAsync`: per group a cancellation check
   * (number `check + i` for group `i`), one ban call, and one report item
   * per chat in the group's order.
   */
  method KickGroups(groups: seq<TargetGroup>, userId: int, permanentBan: bool,
                    ban: BanCall -> BanReply, cancelled: nat -> bool, check: nat)
    returns (f: FanOut)
    ensures f == FanOutFrom(groups, userId, permanentBan, ban, cancelled, check)
  {
    ghost var spec := FanOutFrom(groups, userId, permanentBan, ban, cancelled, check);
    var calls: seq<BanCall> := [];
    var results: seq<KickResultItem> := [];
    var i := 0;
    while i < |groups|
      invariant 0 <= i <= |groups|
      invariant spec == After(calls, results, FanOutFrom(groups[i..], userId, permanentBan, ban, cancelled, check + i))
    {
      var stopped, calls', results' := KickGroup(groups, i, userId, permanentBan, ban, cancelled, check, calls, results);
      if stopped.Some? {
        return stopped.value;
      }
      calls, results := calls', results';
      i := i + 1;
    }
    FanOutDone(calls, results, groups, userId, permanentBan, ban, cancelled, check);
    return FanOut(calls, results, Completed);
  }

  /**
   * One pass of the fan-out loop, for group `i`: the cancellation check, the
   * ban call and the group's items. It either stops the loop with its
   * result, or gives the work done after this group.
   */
  method KickGroup(groups: seq<TargetGroup>, i: int, userId: int, permanentBan: bool,
                   ban: BanCall -> BanReply, cancelled: nat -> bool, check: nat,
                   calls: seq<BanCall>, results: seq<KickResultItem>)
    returns (stopped: Option<FanOut>, calls': seq<BanCall>, results': seq<KickResultItem>)
    requires 0 <= i < |groups|
    ensures var f := After(calls, results, FanOutFrom(groups[i..], userId, permanentBan, ban, cancelled, check + i));
      if stopped.Some? then stopped.value == f
      else f == After(calls', results', FanOutFrom(groups[i + 1..], userId, permanentBan, ban, cancelled, check + (i + 1)))
  {
    var group := groups[i];
    if cancelled(check + i) {
      FanOutCancelledAt(calls, results, groups, i, userId, permanentBan, ban, cancelled, check);
      return Some(FanOut(calls, results, StopCancelled)), calls, results;
    }
    var call := CallFor(group, userId, permanentBan);
    var reply := ban(call);
    if reply.BanThrew? {
      FanOutFaultedAt(calls, results, groups, i, userId, permanentBan, ban, cancelled, check);
      return Some(FanOut(calls + [call], results, StopFaulted(reply.error))), calls, results;
    }
    var items := AddGroupItems(results, group.chats, reply.failures);
    FanOutStep(calls, results, groups, i, userId, permanentBan, ban, cancelled, check, call, items);
    return None, calls + [call], items;
  }

  /** The loop stops at a cancelled check with the work done so far. */
  lemma FanOutCancelledAt(calls: seq<BanCall>, items: seq<KickResultItem>, groups: seq<TargetGroup>, i: int, userId: int,
                          permanentBan: bool, ban: BanCall -> BanReply, cancelled: nat -> bool, check: nat)
    requires 0 <= i < |groups| && cancelled(check + i)
    ensures After(calls, items, FanOutFrom(groups[i..], userId, permanentBan, ban, cancelled, check + i))
      == FanOut(calls, items, StopCancelled)
  {
    assert calls + [] == calls && items + [] == items;
  }

  /** The loop stops at a call that threw, with that call as the last one made. */
  lemma FanOutFaultedAt(calls: seq<BanCall>, items: seq<KickResultItem>, groups: seq<TargetGroup>, i: int, userId: int,
                        permanentBan: bool, ban: BanCall -> BanReply, cancelled: nat -> bool, check: nat)
    requires 0 <= i < |groups| && !cancelled(check + i)
    requires ban(CallFor(groups[i], userId, permanentBan)).BanThrew?
    ensures var call := CallFor(groups[i], userId, permanentBan);
      After(calls, items, FanOutFrom(groups[i..], userId, permanentBan, ban, cancelled, check + i))
      == FanOut(calls + [call], items, StopFaulted(ban(call).error))
  {
    assert groups[i..][0] == groups[i];
    assert items + [] == items;
  }

  /** Past the last group the loop has completed with the work done. */
  lemma FanOutDone(calls: seq<BanCall>, items: seq<KickResultItem>, groups: seq<TargetGroup>, userId: int,
                   permanentBan: bool, ban: BanCall -> BanReply, cancelled: nat -> bool, check: nat)
    ensures After(calls, items, FanOutFrom(groups[|groups|..], userId, permanentBan, ban, cancelled, check + |groups|))
      == FanOut(calls, items, Completed)
  {
    assert groups[|groups|..] == [];
    assert calls + [] == calls && items + [] == items;
  }

  /** Once the request got past authentication, validation and resolution, the fan-out decides the answer. */
  lemma HandleFannedOut(apis: seq<ExternalApiDefinition>, providedKey: string, request: KickRequest,
                        allBots: seq<Bot>, chatsOf: int -> seq<BotChannel>,
                        ban: BanCall -> BanReply, cancelled: nat -> bool, d: ExternalApiDefinition, t: TargetResolution)
    requires Authenticate(apis, providedKey) == Matched(d) && request.userId > 0
    requires var s := ScopeOf(d, request);
      Resolve(allBots, chatsOf, s.botId, s.useAllChats, s.chatSet, cancelled) == Resolved(t)
    requires t.totalChats != 0
    ensures var s := ScopeOf(d, request);
      var f := FanOutFrom(t.groups, request.userId, s.permanentBan, ban, cancelled, |CandidateBots(allBots, s.botId)|);
      Handle(apis, providedKey, request, allBots, chatsOf, ban, cancelled) ==
        match f.stop
        case Completed => (HttpOk(OkResponse(s.permanentBan, request.userId, f.items)), f.calls)
        case StopCancelled => (Cancelled, f.calls)
        case StopFaulted(e) => (Faulted(e), f.calls)
  {
  }

  /** `HandleAsync`. */
  method HandleAsync(apis: seq<ExternalApiDefinition>, providedKey: string, request: KickRequest,
                     allBots: seq<Bot>, chatsOf: int -> seq<BotChannel>,
                     ban: BanCall -> BanReply, cancelled: nat -> bool)
    returns (outcome: KickOutcome, calls: seq<BanCall>)
    ensures (outcome, calls) == Handle(apis, providedKey, request, allBots, chatsOf, ban, cancelled)
  {
    var auth := Authenticate(apis, providedKey);
    if auth.NoneEnabled? {
      return HttpNotFound, [];
    }
    if auth.NoKeyMatched? {
      return HttpUnauthorized, [];
    }
    outcome, calls := HandleMatchedAsync(auth.definition, request, allBots, chatsOf, ban, cancelled);
  }

  /** `HandleAsync` once definition `d` matched the key: validation, resolution, fan-out and report. */
  method HandleMatchedAsync(d: ExternalApiDefinition, request: KickRequest,
                            allBots: seq<Bot>, chatsOf: int -> seq<BotChannel>,
                            ban: BanCall -> BanReply, cancelled: nat -> bool)
    returns (outcome: KickOutcome, calls: seq<BanCall>)
    ensures (outcome, calls) == HandleMatched(d, request, allBots, chatsOf, ban, cancelled)
  {
    if request.userId <= 0 {
      return HttpBadRequest(FailureResponse(InvalidUserMessage)), [];
    }
    var scope := ScopeOf(d, request);
    var resolved, checks := ResolveTargets(allBots, chatsOf, scope.botId, scope.useAllChats, scope.chatSet, cancelled);
    if resolved.ResolveCancelled? {
      return Cancelled, [];
    }
    var targets := resolved.resolution;
    if targets.totalChats == 0 {
      return HttpBadRequest(FailureResponse(NoTargetsMessage)), [];
    }
    var f := KickGroups(targets.groups, request.userId, scope.permanentBan, ban, cancelled, checks);
    calls := f.calls;
    if f.stop.StopCancelled? {
      return Cancelled, calls;
    }
    if f.stop.StopFaulted? {
      return Faulted(f.stop.error), calls;
    }
    var response := BuildReport(scope.permanentBan, request.userId, f.items);
    return HttpOk(response), calls;
  }

  /** The 200 body: the success message, the counts and the items. */
  method BuildReport(permanentBan: bool, userId: int, results: seq<KickResultItem>) returns (response: KickResponse)
    ensures response == OkResponse(permanentBan, userId, results)
  {
    var okCount := Seqs.Count(results, IsSuccess);
    var total := |results|;
    var failed := total - okCount;
    var message := OkMessage(permanentBan, userId, okCount, total);
    response := KickResponse(true, message, KickSummary(total, okCount, failed), results);
  }

  // -------------------------------------------------------- request outcomes

  /**
   * 404 exactly when no kick definition is enabled (also when there are
   * none); 401 exactly when some is enabled but none with this key.
   */
  lemma AuthOutcomes(apis: seq<ExternalApiDefinition>, providedKey: string, request: KickRequest,
                     allBots: seq<Bot>, chatsOf: int -> seq<BotChannel>,
                     ban: BanCall -> BanReply, cancelled: nat -> bool)
    ensures Handle(apis, providedKey, request, allBots, chatsOf, ban, cancelled).0 == HttpNotFound
      <==> forall i :: 0 <= i < |apis| && IsKickType(apis[i]) ==> !apis[i].enabled
    ensures Handle(apis, providedKey, request, allBots, chatsOf, ban, cancelled).0 == HttpUnauthorized
      <==> (exists i :: 0 <= i < |apis| && IsKickType(apis[i]) && apis[i].enabled)
           && forall i :: 0 <= i < |apis| ==>
                !(IsKickType(apis[i]) && apis[i].enabled && FixedTimeEquals(apis[i].apiKey, providedKey))
  {
    AuthenticateFacts(apis, providedKey);
  }

  /** No ban call is made unless the key matched, the user id is valid and some chat was resolved. */
  lemma CallsOnlyAfterValidation(apis: seq<ExternalApiDefinition>, providedKey: string, request: KickRequest,
                                 allBots: seq<Bot>, chatsOf: int -> seq<BotChannel>,
                                 ban: BanCall -> BanReply, cancelled: nat -> bool)
    requires Handle(apis, providedKey, request, allBots, chatsOf, ban, cancelled).1 != []
    ensures Authenticate(apis, providedKey).Matched?
    ensures request.userId > 0
    ensures var s := ScopeOf(Authenticate(apis, providedKey).definition, request);
      var r := Resolve(allBots, chatsOf, s.botId, s.useAllChats, s.chatSet, cancelled);
      r.Resolved? && r.resolution.totalChats > 0
  {
  }

  /**
   * Once the key matched (the only way past 404 and 401, see
   * `AuthOutcomes`), a 400 carries a zero summary and no results, follows
   * no ban call, and
   * names the invalid user id exactly when that was the reason (otherwise
   * the resolution was empty).
   */
  lemma BadRequests(d: ExternalApiDefinition, request: KickRequest,
                    allBots: seq<Bot>, chatsOf: int -> seq<BotChannel>,
                    ban: BanCall -> BanReply, cancelled: nat -> bool)
    requires HandleMatched(d, request, allBots, chatsOf, ban, cancelled).0.HttpBadRequest?
    ensures var (outcome, calls) := HandleMatched(d, request, allBots, chatsOf, ban, cancelled);
      && calls == []
      && !outcome.response.success
      && outcome.response.summary == KickSummary(0, 0, 0)
      && outcome.response.results == []
      && (outcome.response.message == InvalidUserMessage <==> request.userId <= 0)
      && (outcome.response.message == NoTargetsMessage <==> request.userId > 0)
    ensures request.userId > 0 ==>
      var s := ScopeOf(d, request);
      var r := Resolve(allBots, chatsOf, s.botId, s.useAllChats, s.chatSet, cancelled);
      r.Resolved? && r.resolution.totalChats == 0
  {
    assert InvalidUserMessage != NoTargetsMessage by {
      assert InvalidUserMessage[0] != NoTargetsMessage[0];
    }
  }

  /**
   * The 200 report: one ban call per resolved group, in order, with that
   * group's bot and chat ids, the user id and the ban option; one item per
   * resolved chat, group by group, each a success exactly when its chat is
   * missing from that call's failure map; and the summary counts.
   */
  lemma OkReport(apis: seq<ExternalApiDefinition>, providedKey: string, request: KickRequest,
                 allBots: seq<Bot>, chatsOf: int -> seq<BotChannel>,
                 ban: BanCall -> BanReply, cancelled: nat -> bool)
    requires Handle(apis, providedKey, request, allBots, chatsOf, ban, cancelled).0.HttpOk?
    ensures Authenticate(apis, providedKey).Matched? && request.userId > 0
    ensures var s := ScopeOf(Authenticate(apis, providedKey).definition, request);
      var rr := Resolve(allBots, chatsOf, s.botId, s.useAllChats, s.chatSet, cancelled);
      var (outcome, calls) := Handle(apis, providedKey, request, allBots, chatsOf, ban, cancelled);
      var r := outcome.response;
      && rr.Resolved?
      && |calls| == |rr.resolution.groups|
      && (forall k :: 0 <= k < |calls| ==>
            calls[k] == BanCall(rr.resolution.groups[k].bot.id, ChatIds(rr.resolution.groups[k].chats),
                                request.userId, s.permanentBan))
      && |r.results| == rr.resolution.totalChats
      && ItemsLayout(r.results, rr.resolution.groups, request.userId, s.permanentBan, ban)
      && r.success
      && r.summary.total == |r.results|
      && r.summary.success == |Seqs.Filter(r.results, IsSuccess)|
      && r.summary.failed == r.summary.total - r.summary.success
  {
    var d := Authenticate(apis, providedKey).definition;
    assert Handle(apis, providedKey, request, allBots, chatsOf, ban, cancelled)
      == HandleMatched(d, request, allBots, chatsOf, ban, cancelled);
    OkMatched(d, request, allBots, chatsOf, ban, cancelled);
  }

  /** `OkReport` once the key matched. */
  lemma OkMatched(d: ExternalApiDefinition, request: KickRequest,
                  allBots: seq<Bot>, chatsOf: int -> seq<BotChannel>,
                  ban: BanCall -> BanReply, cancelled: nat -> bool)
    requires HandleMatched(d, request, allBots, chatsOf, ban, cancelled).0.HttpOk?
    ensures request.userId > 0
    ensures var s := ScopeOf(d, request);
      var rr := Resolve(allBots, chatsOf, s.botId, s.useAllChats, s.chatSet, cancelled);
      var (outcome, calls) := HandleMatched(d, request, allBots, chatsOf, ban, cancelled);
      && rr.Resolved?
      && |calls| == |rr.resolution.groups|
      && (forall k :: 0 <= k < |calls| ==>
            calls[k] == BanCall(rr.resolution.groups[k].bot.id, ChatIds(rr.resolution.groups[k].chats),
                                request.userId, s.permanentBan))
      && |outcome.response.results| == rr.resolution.totalChats
      && ItemsLayout(outcome.response.results, rr.resolution.groups, request.userId, s.permanentBan, ban)
      && outcome.response == OkResponse(s.permanentBan, request.userId, outcome.response.results)
  {
    var s := ScopeOf(d, request);
    var r := Resolve(allBots, chatsOf, s.botId, s.useAllChats, s.chatSet, cancelled);
    assert request.userId > 0 && r.Resolved?;
    var check := |CandidateBots(allBots, s.botId)|;
    var f := FanOutFrom(r.resolution.groups, request.userId, s.permanentBan, ban, cancelled, check);
    assert f.stop.Completed?;
    assert HandleMatched(d, request, allBots, chatsOf, ban, cancelled)
      == (HttpOk(OkResponse(s.permanentBan, request.userId, f.items)), f.calls);
    CompletedFanOut(r.resolution.groups, request.userId, s.permanentBan, ban, cancelled, check);
    assert r.resolution.totalChats == TotalChats(r.resolution.groups);
  }

  /** A fan-out that completed called every group in order and laid out every chat's item. */
  lemma CompletedFanOut(groups: seq<TargetGroup>, userId: int, permanentBan: bool,
                        ban: BanCall -> BanReply, cancelled: nat -> bool, check: nat)
    requires FanOutFrom(groups, userId, permanentBan, ban, cancelled, check).stop.Completed?
    ensures var f := FanOutFrom(groups, userId, permanentBan, ban, cancelled, check);
      && |f.calls| == |groups|
      && (forall k :: 0 <= k < |f.calls| ==>
            f.calls[k] == BanCall(groups[k].bot.id, ChatIds(groups[k].chats), userId, permanentBan))
      && |f.items| == TotalChats(groups)
      && ItemsLayout(f.items, groups, userId, permanentBan, ban)
  {
    FanOutCalls(groups, userId, permanentBan, ban, cancelled, check);
    FanOutStop(groups, userId, permanentBan, ban, cancelled, check);
    FanOutItems(groups, userId, permanentBan, ban, cancelled, check);
  }

  /**
   * An exception from a ban call fails the whole request: it comes from the
   * last call made, every earlier call returned, and no later group is
   * called.
   */
  lemma FaultEndsRequest(apis: seq<ExternalApiDefinition>, providedKey: string, request: KickRequest,
                         allBots: seq<Bot>, chatsOf: int -> seq<BotChannel>,
                         ban: BanCall -> BanReply, cancelled: nat -> bool)
    requires Handle(apis, providedKey, request, allBots, chatsOf, ban, cancelled).0.Faulted?
    ensures var (outcome, calls) := Handle(apis, providedKey, request, allBots, chatsOf, ban, cancelled);
      && calls != []
      && ban(calls[|calls| - 1]) == BanThrew(outcome.error)
      && forall k :: 0 <= k < |calls| - 1 ==> ban(calls[k]).BanFailures?
  {
    var d := Authenticate(apis, providedKey).definition;
    assert Handle(apis, providedKey, request, allBots, chatsOf, ban, cancelled)
      == HandleMatched(d, request, allBots, chatsOf, ban, cancelled);
    FaultEndsMatched(d, request, allBots, chatsOf, ban, cancelled);
  }

  /** `FaultEndsRequest` once the key matched. */
  lemma FaultEndsMatched(d: ExternalApiDefinition, request: KickRequest,
                         allBots: seq<Bot>, chatsOf: int -> seq<BotChannel>,
                         ban: BanCall -> BanReply, cancelled: nat -> bool)
    requires HandleMatched(d, request, allBots, chatsOf, ban, cancelled).0.Faulted?
    ensures var (outcome, calls) := HandleMatched(d, request, allBots, chatsOf, ban, cancelled);
      && calls != []
      && ban(calls[|calls| - 1]) == BanThrew(outcome.error)
      && forall k :: 0 <= k < |calls| - 1 ==> ban(calls[k]).BanFailures?
  {
    var s := ScopeOf(d, request);
    var r := Resolve(allBots, chatsOf, s.botId, s.useAllChats, s.chatSet, cancelled);
    assert r.Resolved?;
    var check := |CandidateBots(allBots, s.botId)|;
    var f := FanOutFrom(r.resolution.groups, request.userId, s.permanentBan, ban, cancelled, check);
    assert HandleMatched(d, request, allBots, chatsOf, ban, cancelled) == (Faulted(f.stop.error), f.calls);
    FaultedFanOut(r.resolution.groups, request.userId, s.permanentBan, ban, cancelled, check);
  }

  /** A fan-out that faulted made at least one call, the last one threw and all before it returned. */
  lemma FaultedFanOut(groups: seq<TargetGroup>, userId: int, permanentBan: bool,
                      ban: BanCall -> BanReply, cancelled: nat -> bool, check: nat)
    requires FanOutFrom(groups, userId, permanentBan, ban, cancelled, check).stop.StopFaulted?
    ensures var f := FanOutFrom(groups, userId, permanentBan, ban, cancelled, check);
      && f.calls != []
      && ban(f.calls[|f.calls| - 1]) == BanThrew(f.stop.error)
      && forall k :: 0 <= k < |f.calls| - 1 ==> ban(f.calls[k]).BanFailures?
  {
    FanOutStop(groups, userId, permanentBan, ban, cancelled, check);
  }

  /** Once the key matched, a cancelled request gives no report, and some cancellation check saw the request cancelled. */
  lemma CancelledMeansRequested(d: ExternalApiDefinition, request: KickRequest,
                                allBots: seq<Bot>, chatsOf: int -> seq<BotChannel>,
                                ban: BanCall -> BanReply, cancelled: nat -> bool)
    requires HandleMatched(d, request, allBots, chatsOf, ban, cancelled).0 == Cancelled
    ensures exists k: nat :: cancelled(k)
  {
    var s := ScopeOf(d, request);
    var bots := CandidateBots(allBots, s.botId);
    var r := Resolve(allBots, chatsOf, s.botId, s.useAllChats, s.chatSet, cancelled);
    if exists k | 0 <= k < |bots| :: cancelled(k) {
      var k :| 0 <= k < |bots| && cancelled(k);
    } else {
      assert r.Resolved?;
      var t := r.resolution;
      var check := |bots|;
      FanOutStop(t.groups, request.userId, s.permanentBan, ban, cancelled, check);
      var f := FanOutFrom(t.groups, request.userId, s.permanentBan, ban, cancelled, check);
      assert f.stop == StopCancelled;
      assert StopFacts(f, t.groups, ban, cancelled, check);
      var k: nat := check + |f.calls|;
      assert cancelled(k);
    }
  }
}
