/**
 * The channel queries of the data layer, over the stored channels as a
 * sequence in store order. Every list query orders by `SyncedAt`, newest
 * first; channels synced at the same time keep store order. The view query
 * filters by creator, public/private kind and a search term, and pages the
 * result with 32-bit page arithmetic.
 */
module ChannelRepository {
  import opened Wrappers
  import Text
  import Seqs
  import Sorting
  import opened Entities

  // ------------------------------------------------------------- ordering

  /** `OrderByDescending(c => c.SyncedAt)`: `a` may come before `b`. */
  predicate SyncedNotBefore(a: Channel, b: Channel) {
    a.syncedAt >= b.syncedAt
  }

  lemma SyncedNotBeforeTotalPreorder()
    ensures Sorting.TotalPreorder(SyncedNotBefore)
  {
  }

  /** `Where(p).OrderByDescending(c => c.SyncedAt)`. */
  function Listing(store: seq<Channel>, p: Channel -> bool): seq<Channel> {
    Sorting.SortBy(Seqs.Filter(store, p), SyncedNotBefore)
  }

  /** A listing holds exactly the stored channels that pass, each as often as stored, newest first. */
  lemma ListingFacts(store: seq<Channel>, p: Channel -> bool)
    ensures forall c :: c in Listing(store, p) <==> c in store && p(c)
    ensures multiset(Listing(store, p)) == multiset(Seqs.Filter(store, p))
    ensures Sorting.SortedBy(Listing(store, p), SyncedNotBefore)
  {
    var f := Seqs.Filter(store, p);
    Seqs.FilterKeeps(store, p);
    forall c ensures c in Listing(store, p) <==> c in f {
      Sorting.SortMembers(f, SyncedNotBefore, c);
    }
    forall c | c in f ensures c in store && p(c) {
      var i :| 0 <= i < |f| && f[i] == c;
    }
    SyncedNotBeforeTotalPreorder();
    Sorting.SortSorted(f, SyncedNotBefore);
    Sorting.SortPermutes(f, SyncedNotBefore);
  }

  // ------------------------------------------------------------ simple queries

  function HasId(id: int): Channel -> bool {
    (c: Channel) => c.id == id
  }

  function HasTelegramId(telegramId: int): Channel -> bool {
    (c: Channel) => c.telegramId == telegramId
  }

  /** `GetByIdAsync`: the first stored channel with that id. */
  function GetById(store: seq<Channel>, id: int): (r: Option<Channel>)
    ensures r.None? <==> forall i :: 0 <= i < |store| ==> store[i].id != id
    ensures r.Some? ==> r.value in store && r.value.id == id
  {
    var r := Seqs.FirstWhere(store, HasId(id));
    assert forall i :: 0 <= i < |store| ==> HasId(id)(store[i]) == (store[i].id == id);
    r
  }

  /** `GetByTelegramIdAsync`: the first stored channel with that Telegram id. */
  function GetByTelegramId(store: seq<Channel>, telegramId: int): (r: Option<Channel>)
    ensures r.None? <==> forall i :: 0 <= i < |store| ==> store[i].telegramId != telegramId
    ensures r.Some? ==> r.value in store && r.value.telegramId == telegramId
  {
    var r := Seqs.FirstWhere(store, HasTelegramId(telegramId));
    assert forall i :: 0 <= i < |store| ==> HasTelegramId(telegramId)(store[i]) == (store[i].telegramId == telegramId);
    r
  }

  /** `GetAllAsync`: every stored channel, newest first. */
  function GetAll(store: seq<Channel>): (r: seq<Channel>)
    ensures multiset(r) == multiset(store)
    ensures Sorting.SortedBy(r, SyncedNotBefore)
  {
    SyncedNotBeforeTotalPreorder();
    Sorting.SortSorted(store, SyncedNotBefore);
    Sorting.SortPermutes(store, SyncedNotBefore);
    Sorting.SortBy(store, SyncedNotBefore)
  }

  function HasCreator(): Channel -> bool {
    (c: Channel) => c.creatorAccountId.Some?
  }

  function CreatedBy(accountId: int): Channel -> bool {
    (c: Channel) => c.creatorAccountId == Some(accountId)
  }

  function InGroup(groupId: int): Channel -> bool {
    (c: Channel) => c.groupId == Some(groupId)
  }

  function IsBroadcast(): Channel -> bool {
    (c: Channel) => c.isBroadcast
  }

  /** `GetCreatedAsync`: the channels that record a creating account, newest first. */
  function GetCreated(store: seq<Channel>): (r: seq<Channel>)
    ensures forall c :: c in r <==> c in store && c.creatorAccountId.Some?
    ensures Sorting.SortedBy(r, SyncedNotBefore)
  {
    ListingFacts(store, HasCreator());
    Listing(store, HasCreator())
  }

  /** `GetByCreatorAccountAsync`: the channels that account created, newest first. */
  function GetByCreatorAccount(store: seq<Channel>, accountId: int): (r: seq<Channel>)
    ensures forall c :: c in r <==> c in store && c.creatorAccountId == Some(accountId)
    ensures Sorting.SortedBy(r, SyncedNotBefore)
  {
    ListingFacts(store, CreatedBy(accountId));
    Listing(store, CreatedBy(accountId))
  }

  /** `GetByGroupAsync`: the channels of that group, newest first. */
  function GetByGroup(store: seq<Channel>, groupId: int): (r: seq<Channel>)
    ensures forall c :: c in r <==> c in store && c.groupId == Some(groupId)
    ensures Sorting.SortedBy(r, SyncedNotBefore)
  {
    ListingFacts(store, InGroup(groupId));
    Listing(store, InGroup(groupId))
  }

  /** `GetBroadcastChannelsAsync`: the broadcast channels, newest first. */
  function GetBroadcastChannels(store: seq<Channel>): (r: seq<Channel>)
    ensures forall c :: c in r <==> c in store && c.isBroadcast
    ensures Sorting.SortedBy(r, SyncedNotBefore)
  {
    ListingFacts(store, IsBroadcast());
    Listing(store, IsBroadcast())
  }

  /** The account's links that count: all of them, or only those where it is the creator. */
  predicate LinkCounts(link: AccountChannel, accountId: int, includeNonCreator: bool) {
    link.accountId == accountId && (includeNonCreator || link.isCreator)
  }

  function LinkedTo(links: seq<AccountChannel>, accountId: int, includeNonCreator: bool): Channel -> bool {
    (c: Channel) => exists i :: 0 <= i < |links| && LinkCounts(links[i], accountId, includeNonCreator) && links[i].channelId == c.id
  }

  /** `GetForAccountAsync`: the channels some counting link of the account points at, newest first. */
  function GetForAccount(store: seq<Channel>, links: seq<AccountChannel>, accountId: int, includeNonCreator: bool)
    : (r: seq<Channel>)
    ensures forall c :: c in r <==>
      (c in store && (exists i :: 0 <= i < |links| && links[i].accountId == accountId && (includeNonCreator || links[i].isCreator) && links[i].channelId == c.id))
    ensures Sorting.SortedBy(r, SyncedNotBefore)
  {
    ListingFacts(store, LinkedTo(links, accountId, includeNonCreator));
    Listing(store, LinkedTo(links, accountId, includeNonCreator))
  }

  /** Including the links where the account is not the creator only ever adds channels. */
  lemma CreatorLinksAreIncluded(store: seq<Channel>, links: seq<AccountChannel>, accountId: int, c: Channel)
    ensures c in GetForAccount(store, links, accountId, false) ==> c in GetForAccount(store, links, accountId, true)
  {
    if c in GetForAccount(store, links, accountId, false) {
      var i :| 0 <= i < |links| && links[i].accountId == accountId && links[i].isCreator && links[i].channelId == c.id;
      assert links[i].accountId == accountId && (true || links[i].isCreator) && links[i].channelId == c.id;
    }
  }

  // ------------------------------------------------------------- view query

  /** The channel kinds the view can be narrowed to. */
  datatype Kind = AllKinds | PublicOnly | PrivateOnly

  /** `(filterType ?? "all").Trim().ToLowerInvariant()`, and which kind that names. */
  function ParseFilterType(filterType: Option<string>): (k: Kind)
    ensures var t := Text.ToLower(Text.Trim(filterType.GetOr("all")));
      && (k == PublicOnly <==> t == "public")
      && (k == PrivateOnly <==> t == "private")
  {
    var t := Text.ToLower(Text.Trim(filterType.GetOr("all")));
    if t == "public" then PublicOnly else if t == "private" then PrivateOnly else AllKinds
  }

  /** A public channel has a non-empty username. */
  predicate IsPublic(c: Channel) {
    c.username.Some? && c.username.value != ""
  }

  /** The creator condition: any creator for a non-positive id, that creator otherwise. */
  predicate CreatorOk(c: Channel, creatorAccountId: int) {
    if creatorAccountId <= 0 then c.creatorAccountId.Some? else c.creatorAccountId == Some(creatorAccountId)
  }

  predicate KindOk(c: Channel, kind: Kind) {
    match kind
    case AllKinds => true
    case PublicOnly => IsPublic(c)
    case PrivateOnly => !IsPublic(c)
  }

  /** The search condition; `term` is already trimmed, and a blank term matches everything. */
  predicate SearchOk(c: Channel, term: string) {
    Text.IsBlank(term) || Text.Contains(c.title, term) || (c.username.Some? && Text.Contains(c.username.value, term))
  }

  function InView(creatorAccountId: int, kind: Kind, term: string): Channel -> bool {
    (c: Channel) => CreatorOk(c, creatorAccountId) && KindOk(c, kind) && SearchOk(c, term)
  }

  /** `BuildForViewQuery`: the channels passing the three filters, newest first. */
  function View(store: seq<Channel>, creatorAccountId: int, filterType: Option<string>, search: Option<string>)
    : seq<Channel>
  {
    Listing(store, InView(creatorAccountId, ParseFilterType(filterType), Text.Trim(search.GetOr(""))))
  }

  /** A channel is in the view exactly when it is stored and passes the creator, kind and search conditions. */
  lemma ViewMembers(store: seq<Channel>, creatorAccountId: int, filterType: Option<string>, search: Option<string>, c: Channel)
    ensures var term := Text.Trim(search.GetOr(""));
      c in View(store, creatorAccountId, filterType, search) <==>
        && c in store
        && (creatorAccountId <= 0 ==> c.creatorAccountId.Some?)
        && (creatorAccountId > 0 ==> c.creatorAccountId == Some(creatorAccountId))
        && (ParseFilterType(filterType) == PublicOnly ==> c.username.Some? && c.username.value != "")
        && (ParseFilterType(filterType) == PrivateOnly ==> c.username.None? || c.username.value == "")
        && (term != [] ==> Text.Contains(c.title, term) || (c.username.Some? && Text.Contains(c.username.value, term)))
    ensures Sorting.SortedBy(View(store, creatorAccountId, filterType, search), SyncedNotBefore)
  {
    var term := Text.Trim(search.GetOr(""));
    ListingFacts(store, InView(creatorAccountId, ParseFilterType(filterType), term));
    TrimmedBlankIsEmpty(search.GetOr(""));
    InViewMeans(c, creatorAccountId, ParseFilterType(filterType), term);
  }

  /** The three view conditions written out, for a term that is blank only when empty. */
  lemma InViewMeans(c: Channel, creatorAccountId: int, kind: Kind, term: string)
    requires Text.IsBlank(term) <==> term == []
    ensures InView(creatorAccountId, kind, term)(c) <==>
        && (creatorAccountId <= 0 ==> c.creatorAccountId.Some?)
        && (creatorAccountId > 0 ==> c.creatorAccountId == Some(creatorAccountId))
        && (kind == PublicOnly ==> c.username.Some? && c.username.value != "")
        && (kind == PrivateOnly ==> c.username.None? || c.username.value == "")
        && (term != [] ==> Text.Contains(c.title, term) || (c.username.Some? && Text.Contains(c.username.value, term)))
  {
  }

  /** A trimmed string is blank only when it is empty. */
  lemma TrimmedBlankIsEmpty(s: string)
    ensures Text.IsBlank(Text.Trim(s)) <==> Text.Trim(s) == []
  {
    var t := Text.Trim(s);
    if t != [] {
      assert !Text.IsWhiteSpace(t[0]);
    }
  }

  /** For the same creator and search, the public and the private channels split the unfiltered ones. */
  lemma {:induction false} KindsPartition(store: seq<Channel>, creatorAccountId: int, term: string)
    ensures multiset(Seqs.Filter(store, InView(creatorAccountId, PublicOnly, term)))
          + multiset(Seqs.Filter(store, InView(creatorAccountId, PrivateOnly, term)))
         == multiset(Seqs.Filter(store, InView(creatorAccountId, AllKinds, term)))
  {
    if store != [] {
      KindsPartition(store[1..], creatorAccountId, term);
    }
  }

  /** A name with no white space at either end that is its own lower case names the kind it spells. */
  lemma NameKind(name: string)
    requires name != [] && !Text.IsWhiteSpace(name[0]) && !Text.IsWhiteSpace(name[|name| - 1])
    requires Text.ToLower(name) == name
    ensures ParseFilterType(Some(name)) == if name == "public" then PublicOnly else if name == "private" then PrivateOnly else AllKinds
  {
    Text.TrimNoWhiteSpace(name);
  }

  /** The filter names; a null filter type reads as "all". */
  lemma FilterTypeNames()
    ensures ParseFilterType(Some("public")) == PublicOnly
    ensures ParseFilterType(Some("private")) == PrivateOnly
    ensures ParseFilterType(None) == AllKinds
  {
    PublicName();
    PrivateName();
    ShortNameIsAll("all");
  }

  /** A name shorter than "public" names all kinds. */
  lemma ShortNameIsAll(name: string)
    requires |name| < |"public"|
    ensures ParseFilterType(Some(name)) == AllKinds
  {
    var t := Text.ToLower(Text.Trim(name));
    assert |t| < |"public"| < |"private"|;
  }

  lemma PublicName()
    ensures ParseFilterType(Some("public")) == PublicOnly
  {
    NameKind("public");
  }

  lemma PrivateName()
    ensures ParseFilterType(Some("private")) == PrivateOnly
  {
    NameKind("private");
  }

  /** Then the "public" view and the "private" view together are the "all" view, as a multiset. */
  lemma PublicPrivateSplitAll(store: seq<Channel>, creatorAccountId: int, search: Option<string>)
    ensures multiset(View(store, creatorAccountId, Some("public"), search))
          + multiset(View(store, creatorAccountId, Some("private"), search))
         == multiset(View(store, creatorAccountId, None, search))
  {
    var term := Text.Trim(search.GetOr(""));
    FilterTypeNames();
    KindsPartition(store, creatorAccountId, term);
    Sorting.SortPermutes(Seqs.Filter(store, InView(creatorAccountId, PublicOnly, term)), SyncedNotBefore);
    Sorting.SortPermutes(Seqs.Filter(store, InView(creatorAccountId, PrivateOnly, term)), SyncedNotBefore);
    Sorting.SortPermutes(Seqs.Filter(store, InView(creatorAccountId, AllKinds, term)), SyncedNotBefore);
  }

  // ---------------------------------------------------------------- paging

  const MinInt32: int := -0x8000_0000
  const MaxInt32: int := 0x7FFF_FFFF

  type Int32 = x: int | MinInt32 <= x <= MaxInt32

  /** Two's-complement 32-bit wrap-around of a product. */
  function Wrap32(x: int): (r: int)
    ensures MinInt32 <= r <= MaxInt32
    ensures MinInt32 <= x <= MaxInt32 ==> r == x
    ensures (r - x) % 0x1_0000_0000 == 0
  {
    (x - MinInt32) % 0x1_0000_0000 + MinInt32
  }

  /** The page clamps: a negative index is 0, a non-positive size 20, a size over 500 is 500. */
  function ClampPage(pageIndex: Int32, pageSize: Int32): (r: (int, int))
    ensures 0 <= r.0 <= MaxInt32 && 1 <= r.1 <= 500
    ensures r.0 == if pageIndex < 0 then 0 else pageIndex
    ensures r.1 == if pageSize <= 0 then 20 else if pageSize > 500 then 500 else pageSize
  {
    var index := if pageIndex < 0 then 0 else pageIndex;
    var size := if pageSize <= 0 then 20 else if pageSize > 500 then 500 else pageSize;
    (index, size)
  }

  datatype PagedResult = PagedResult(items: seq<Channel>, totalCount: int)

  /** The page of `query` as written: the offset `index * size` is an `int` product. */
  function PageAsWritten(query: seq<Channel>, pageIndex: Int32, pageSize: Int32): PagedResult {
    var (index, size) := ClampPage(pageIndex, pageSize);
    PagedResult(Seqs.Take(Seqs.Skip(query, Wrap32(index * size)), size), |query|)
  }

  /** The page of `query` with the offset computed without overflow. */
  function Page(query: seq<Channel>, pageIndex: Int32, pageSize: Int32): PagedResult {
    var (index, size) := ClampPage(pageIndex, pageSize);
    PagedResult(Seqs.Take(Seqs.Skip(query, index * size), size), |query|)
  }

  /** `QueryForViewPagedAsync` as written. */
  function QueryForViewPagedAsWritten(store: seq<Channel>, creatorAccountId: int, filterType: Option<string>,
                                      search: Option<string>, pageIndex: Int32, pageSize: Int32): PagedResult
  {
    PageAsWritten(View(store, creatorAccountId, filterType, search), pageIndex, pageSize)
  }

  /** `QueryForViewPagedAsync` with the overflow corrected. */
  function QueryForViewPaged(store: seq<Channel>, creatorAccountId: int, filterType: Option<string>,
                             search: Option<string>, pageIndex: Int32, pageSize: Int32): PagedResult
  {
    Page(View(store, creatorAccountId, filterType, search), pageIndex, pageSize)
  }

  /**
   * The page is the slice of the view starting at `index * size`, at most
   * `size` long, and the total is the size of the whole view, whatever page is asked for.
   */
  lemma PageIsSlice(query: seq<Channel>, pageIndex: Int32, pageSize: Int32)
    ensures var (index, size) := ClampPage(pageIndex, pageSize);
      var r := Page(query, pageIndex, pageSize);
      var from := if index * size < |query| then index * size else |query|;
      var to := if from + size < |query| then from + size else |query|;
      && r.totalCount == |query|
      && r.items == query[from..to]
      && |r.items| <= size
  {
    var (index, size) := ClampPage(pageIndex, pageSize);
    var from := if index * size < |query| then index * size else |query|;
    assert Seqs.Skip(query, index * size) == query[from..];
  }

  /** Where page `j / n` starts: at most `j`, and `j % n` before it. */
  lemma PageStart(j: nat, n: int) returns (from: int)
    requires 1 <= n
    ensures from == (j / n) * n && from + j % n == j && 0 <= from <= j && 0 <= j % n < n
  {
    from := (j / n) * n;
  }

  /** Every channel of the view is on page `j / size`, at position `j % size`. */
  lemma EveryChannelOnItsPage(query: seq<Channel>, pageSize: Int32, j: int)
    requires 1 <= pageSize <= 500
    requires 0 <= j < |query|
    requires j / pageSize <= MaxInt32
    ensures var items := Page(query, j / pageSize, pageSize).items;
      j % pageSize < |items| && items[j % pageSize] == query[j]
  {
    var q, r := j / pageSize, j % pageSize;
    var from := PageStart(j, pageSize);
    assert ClampPage(q, pageSize) == (q, pageSize);
    PageIsSlice(query, q, pageSize);
    var to := if from + pageSize < |query| then from + pageSize else |query|;
    assert Page(query, q, pageSize).items == query[from..to];
    assert query[from..to][r] == query[j];
  }

  /** The view query pages its view: the total is the view's size, whatever page is asked for. */
  lemma ViewPaging(store: seq<Channel>, creatorAccountId: int, filterType: Option<string>,
                   search: Option<string>, pageIndex: Int32, pageSize: Int32)
    ensures var query := View(store, creatorAccountId, filterType, search);
      var r := QueryForViewPaged(store, creatorAccountId, filterType, search, pageIndex, pageSize);
      && r.totalCount == |query|
      && (forall k :: 0 <= k < |r.items| ==> r.items[k] in query)
  {
    var query := View(store, creatorAccountId, filterType, search);
    PageIsSlice(query, pageIndex, pageSize);
  }

  /**
   * The 32-bit product wraps: page 8589935 of 500 starts at 204, not past
   * the end, so a view of 205 to 4294967500 channels shows channels on a
   * page that ought to be empty.
   */
  lemma PagingOffsetWraps(query: seq<Channel>)
    requires 204 < |query| <= 4294967500
    ensures PageAsWritten(query, 8589935, 500).items != []
    ensures PageAsWritten(query, 8589935, 500).items[0] == query[204]
    ensures Page(query, 8589935, 500).items == []
  {
    assert 8589935 * 500 == 4294967500;
    assert Wrap32(4294967500) == 204;
  }
}
