/**
 * The bot-channel category queries, over the stored chats and categories
 * as sequences in store order. Categories are ordered by name with the
 * database's binary collation, which is ordinal order; categories with the
 * same name keep store order.
 */
module BotChannelCategoryRepository {
  import opened Wrappers
  import Text
  import Seqs
  import Sorting
  import opened Entities

  predicate NameLe(a: BotChannelCategory, b: BotChannelCategory) {
    Sorting.LexLe(a.name, b.name)
  }

  lemma NameLeTotalPreorder()
    ensures Sorting.TotalPreorder(NameLe)
  {
    forall a, b ensures NameLe(a, b) || NameLe(b, a) {
      Sorting.LexLeTotal(a.name, b.name);
    }
    forall a, b, c | NameLe(a, b) && NameLe(b, c) ensures NameLe(a, c) {
      Sorting.LexLeTransitive(a.name, b.name, c.name);
    }
  }

  /** Some bot of the chat's members is `botId`. */
  predicate ManagedBy(ch: BotChannel, botId: int) {
    exists m :: 0 <= m < |ch.members| && ch.members[m].botId == botId
  }

  /** The category ids of the chats the bot manages, chats without a category skipped, in chat order. */
  function CategoryIds(channels: seq<BotChannel>, botId: int): (ids: seq<int>)
    ensures forall x :: x in ids <==>
      exists i :: 0 <= i < |channels| && ManagedBy(channels[i], botId) && channels[i].categoryId == Some(x)
  {
    if channels == [] then []
    else
      var ch := channels[0];
      var rest := CategoryIds(channels[1..], botId);
      assert forall i :: 1 <= i < |channels| ==> channels[i] == channels[1..][i - 1];
      if ManagedBy(ch, botId) && ch.categoryId.Some? then [ch.categoryId.value] + rest else rest
  }

  function IdIn(ids: seq<int>): BotChannelCategory -> bool {
    (c: BotChannelCategory) => c.id in ids
  }

  /** `GetForBotAsync`: the categories that occur on the chats the bot manages, by name. */
  function GetForBot(channels: seq<BotChannel>, categories: seq<BotChannelCategory>, botId: int)
    : seq<BotChannelCategory>
  {
    if botId <= 0 then []
    else
      var categoryIds := Seqs.Distinct(CategoryIds(channels, botId));
      if categoryIds == [] then []
      else Sorting.SortBy(Seqs.Filter(categories, IdIn(categoryIds)), NameLe)
  }

  /**
   * A category is listed exactly when the bot id is positive and some chat
   * the bot manages is in that category; the list is ordered by name.
   */
  lemma ForBotMembers(channels: seq<BotChannel>, categories: seq<BotChannelCategory>, botId: int, c: BotChannelCategory)
    ensures c in GetForBot(channels, categories, botId) <==>
      && botId > 0
      && c in categories
      && exists i :: 0 <= i < |channels| && ManagedBy(channels[i], botId) && channels[i].categoryId == Some(c.id)
    ensures Sorting.SortedBy(GetForBot(channels, categories, botId), NameLe)
  {
    if botId > 0 {
      var ids := Seqs.Distinct(CategoryIds(channels, botId));
      assert forall x :: x in ids <==> x in CategoryIds(channels, botId);
      if ids != [] {
        var f := Seqs.Filter(categories, IdIn(ids));
        Sorting.SortMembers(f, NameLe, c);
        Seqs.FilterKeeps(categories, IdIn(ids));
        if c in f {
          var k :| 0 <= k < |f| && f[k] == c;
        }
        NameLeTotalPreorder();
        Sorting.SortSorted(f, NameLe);
      } else if c in categories {
        assert c.id !in CategoryIds(channels, botId);
      }
    }
  }

  /** Category ids are primary keys: no two stored categories share one. */
  predicate UniqueIds(categories: seq<BotChannelCategory>) {
    forall i, j :: 0 <= i < j < |categories| ==> categories[i].id != categories[j].id
  }

  lemma {:induction false} FilterUnique(categories: seq<BotChannelCategory>, p: BotChannelCategory -> bool)
    requires UniqueIds(categories)
    ensures Seqs.NoDuplicates(Seqs.Filter(categories, p))
  {
    if categories != [] {
      var rest := categories[1..];
      assert UniqueIds(rest) by {
        forall i, j | 0 <= i < j < |rest| ensures rest[i].id != rest[j].id {
          assert rest[i] == categories[i + 1] && rest[j] == categories[j + 1];
        }
      }
      FilterUnique(rest, p);
      var f := Seqs.Filter(rest, p);
      forall k | 0 <= k < |f| ensures f[k] != categories[0] {
        var i :| 0 <= i < |rest| && rest[i] == f[k];
        assert categories[i + 1] == rest[i];
      }
    }
  }

  /** With unique category ids, no category is listed twice. */
  lemma ForBotOnce(channels: seq<BotChannel>, categories: seq<BotChannelCategory>, botId: int)
    requires UniqueIds(categories)
    ensures Seqs.NoDuplicates(GetForBot(channels, categories, botId))
  {
    var r := GetForBot(channels, categories, botId);
    if r != [] {
      var ids := Seqs.Distinct(CategoryIds(channels, botId));
      var f := Seqs.Filter(categories, IdIn(ids));
      FilterUnique(categories, IdIn(ids));
      Sorting.SortPermutes(f, NameLe);
      forall i, j | 0 <= i < j < |r| ensures r[i] != r[j] {
        if r[i] == r[j] {
          Seqs.TwoCopies(r, i, j);
          Seqs.NoDuplicatesCountsOnce(f, r[i]);
        }
      }
    }
  }

  /** `GetAllOrderedAsync`: every stored category, by name. */
  function GetAllOrdered(categories: seq<BotChannelCategory>): (r: seq<BotChannelCategory>)
    ensures multiset(r) == multiset(categories)
    ensures Sorting.SortedBy(r, NameLe)
  {
    NameLeTotalPreorder();
    Sorting.SortSorted(categories, NameLe);
    Sorting.SortPermutes(categories, NameLe);
    Sorting.SortBy(categories, NameLe)
  }

  function NamedExactly(name: string): BotChannelCategory -> bool {
    (c: BotChannelCategory) => c.name == name
  }

  /** `GetByNameAsync`: none for a blank name, else the first category whose name is the trimmed name. */
  function GetByName(categories: seq<BotChannelCategory>, name: Option<string>): (r: Option<BotChannelCategory>)
    ensures Text.IsNullOrWhiteSpace(name) ==> r.None?
    ensures !Text.IsNullOrWhiteSpace(name) ==>
      (r.None? <==> forall i :: 0 <= i < |categories| ==> categories[i].name != Text.Trim(name.value))
    ensures r.Some? ==> r.value.name == Text.Trim(name.GetOr(""))
    ensures r.Some? ==>
      exists i :: 0 <= i < |categories| && categories[i] == r.value && forall j :: 0 <= j < i ==> categories[j].name != r.value.name
  {
    var n := Text.Trim(name.GetOr(""));
    if Text.IsBlank(n) then None
    else
      var r := Seqs.FirstWhere(categories, NamedExactly(n));
      assert forall i :: 0 <= i < |categories| ==> NamedExactly(n)(categories[i]) == (categories[i].name == n);
      r
  }

  /** Surrounding white space in the name asked for does not change the answer. */
  lemma ByNameIgnoresSurroundingBlanks(categories: seq<BotChannelCategory>, before: string, name: string, after: string)
    requires Text.IsBlank(before) && Text.IsBlank(after)
    ensures GetByName(categories, Some(before + name + after)) == GetByName(categories, Some(name))
  {
    Text.TrimSurrounded(before, name, after);
  }
}
