/**
 * Named lists of Telegram user ids that can be made bot administrators,
 * kept under `BotAdminPresets.Presets` of the local JSON settings file.
 * The file is a value of the service: missing, unreadable, or a parsed
 * JSON tree whose objects keep their members in order. Reading normalises
 * what it finds; saving and deleting validate first and then change one
 * member of the `Presets` object in place.
 */
module BotAdminPresets {
  import opened Wrappers
  import Text
  import Seqs
  import Sorting

  // ------------------------------------------------------------ JSON tree

  /** A JSON node as `System.Text.Json.Nodes` exposes it. */
  datatype Json =
    | JNull
    | JBool(b: bool)
    | JInteger(n: int)        // a number written without fraction or exponent
    | JOtherNumber            // any other number
    | JString(s: string)
    | JArray(items: seq<Json>)
    | JObject(members: seq<Member>)

  datatype Member = Member(key: string, value: Json)

  /** The settings file: absent, not parseable (or not readable), or parsed. */
  datatype ConfigFile = Missing | Corrupt | Present(doc: Json)

  /** `obj[key]`: the value of the first member with that (case-sensitive) key. */
  function Lookup(ms: seq<Member>, key: string): (r: Option<Json>)
    ensures r.None? <==> forall i :: 0 <= i < |ms| ==> ms[i].key != key
    ensures r.Some? ==> Member(key, r.value) in ms
  {
    if ms == [] then None
    else if ms[0].key == key then Some(ms[0].value)
    else
      assert forall i :: 1 <= i < |ms| ==> ms[i] == ms[1..][i - 1];
      Lookup(ms[1..], key)
  }

  /** `obj[key] as JsonObject`: the members of the value when it is an object. */
  function ObjectAt(ms: seq<Member>, key: string): (r: Option<seq<Member>>)
    ensures r.Some? <==> Lookup(ms, key).Some? && Lookup(ms, key).value.JObject?
    ensures r.Some? ==> Lookup(ms, key) == Some(JObject(r.value))
  {
    match Lookup(ms, key)
    case Some(JObject(m)) => Some(m)
    case _ => None
  }

  predicate KeysUnique(ms: seq<Member>) {
    forall i, j :: 0 <= i < j < |ms| ==> ms[i].key != ms[j].key
  }

  /** `obj[key] = value`: replaces the value in place, or appends a new member. */
  function WithMember(ms: seq<Member>, key: string, value: Json): seq<Member> {
    if ms == [] then [Member(key, value)]
    else if ms[0].key == key then [Member(key, value)] + ms[1..]
    else [ms[0]] + WithMember(ms[1..], key, value)
  }

  /** After setting, the key reads the value, every other key reads as before, and a member is added only when the key was absent. */
  lemma {:induction false} WithMemberLookup(ms: seq<Member>, key: string, value: Json)
    ensures Lookup(WithMember(ms, key, value), key) == Some(value)
    ensures forall k :: k != key ==> Lookup(WithMember(ms, key, value), k) == Lookup(ms, k)
    ensures |WithMember(ms, key, value)| == if Lookup(ms, key).Some? then |ms| else |ms| + 1
  {
    if ms != [] && ms[0].key != key {
      WithMemberLookup(ms[1..], key, value);
    }
  }

  /** Setting a member keeps every member under another key, and adds only the new one. */
  lemma {:induction false} WithMemberMembers(ms: seq<Member>, key: string, value: Json, x: Member)
    ensures x in ms && x.key != key ==> x in WithMember(ms, key, value)
    ensures x in WithMember(ms, key, value) ==> x == Member(key, value) || x in ms
  {
    if ms != [] && ms[0].key != key {
      WithMemberMembers(ms[1..], key, value, x);
      assert ms == [ms[0]] + ms[1..];
    }
  }

  /** `obj.Remove(key)`: drops the first member with that key, if any. */
  function WithoutMember(ms: seq<Member>, key: string): seq<Member> {
    if ms == [] then []
    else if ms[0].key == key then ms[1..]
    else [ms[0]] + WithoutMember(ms[1..], key)
  }

  /** Removing leaves every other key as it was, changes nothing when the key is absent, and otherwise drops one member. */
  lemma {:induction false} WithoutMemberLookup(ms: seq<Member>, key: string)
    ensures forall k :: k != key ==> Lookup(WithoutMember(ms, key), k) == Lookup(ms, k)
    ensures Lookup(ms, key).None? ==> WithoutMember(ms, key) == ms
    ensures |WithoutMember(ms, key)| == if Lookup(ms, key).Some? then |ms| - 1 else |ms|
  {
    if ms != [] && ms[0].key != key {
      WithoutMemberLookup(ms[1..], key);
      assert ms == [ms[0]] + ms[1..];
    }
  }

  /** Removing a member keeps every member under another key, and adds none. */
  lemma {:induction false} WithoutMemberMembers(ms: seq<Member>, key: string, x: Member)
    ensures x in WithoutMember(ms, key) ==> x in ms
    ensures x in ms && x.key != key ==> x in WithoutMember(ms, key)
  {
    if ms != [] {
      WithoutMemberMembers(ms[1..], key, x);
      assert ms == [ms[0]] + ms[1..];
    }
  }

  /** With unique keys, the removed key is gone. */
  lemma {:induction false} WithoutUniqueKey(ms: seq<Member>, key: string)
    requires KeysUnique(ms)
    ensures Lookup(WithoutMember(ms, key), key).None?
  {
    if ms != [] && ms[0].key != key {
      assert KeysUnique(ms[1..]) by {
        forall i, j | 0 <= i < j < |ms[1..]| ensures ms[1..][i].key != ms[1..][j].key {
          assert ms[1..][i] == ms[i + 1] && ms[1..][j] == ms[j + 1];
        }
      }
      WithoutUniqueKey(ms[1..], key);
    } else if ms != [] {
      forall i | 0 <= i < |ms[1..]| ensures ms[1..][i].key != key {
        assert ms[1..][i] == ms[i + 1];
      }
    }
  }

  /** A JSON object node that is changed in place. */
  class JsonObjectNode {
    var members: seq<Member>

    constructor (members: seq<Member>)
      ensures this.members == members
    {
      this.members := members;
    }

    method Set(key: string, value: Json)
      modifies this
      ensures members == WithMember(old(members), key, value)
    {
      members := WithMember(members, key, value);
    }

    method Remove(key: string) returns (found: bool)
      modifies this
      ensures found <==> Lookup(old(members), key).Some?
      ensures members == WithoutMember(old(members), key)
    {
      found := Lookup(members, key).Some?;
      members := WithoutMember(members, key);
    }
  }

  // --------------------------------------------------------------- reading

  datatype BotAdminPreset = BotAdminPreset(name: string, userIds: seq<int>)

  const SectionKey: string := "BotAdminPresets"
  const PresetsKey: string := "Presets"

  /** The `Presets` object, when the root, the section and it are all JSON objects. */
  function PresetsObject(file: ConfigFile): (r: Option<seq<Member>>)
    ensures r.Some? ==> file.Present? && file.doc.JObject?
  {
    if file.Present? && file.doc.JObject? then
      match ObjectAt(file.doc.members, SectionKey)
      case None => None
      case Some(section) => ObjectAt(section, PresetsKey)
    else None
  }

  /**
   * The id an array element stands for: a 64-bit integer above zero, or a
   * string that `long.TryParse` reads as one. Nulls, other numbers,
   * booleans, arrays and objects stand for none.
   */
  function IdOf(node: Json): (r: Option<int>)
    ensures r.Some? ==> 0 < r.value <= Text.MaxLong
    ensures node.JNull? || node.JBool? || node.JOtherNumber? || node.JArray? || node.JObject? ==> r.None?
  {
    match node
    case JInteger(n) => if Text.MinLong <= n <= Text.MaxLong && n > 0 then Some(n) else None
    case JString(s) =>
      var sid := Text.TryParseLong(s);
      if sid.Some? && sid.value > 0 then Some(sid.value) else None
    case _ => None
  }

  /** The ids of an array's elements, in element order, duplicates included. */
  function ValidIds(items: seq<Json>): (ids: seq<int>)
    ensures forall k :: 0 <= k < |ids| ==> 0 < ids[k] <= Text.MaxLong
  {
    if items == [] then []
    else
      var last := IdOf(items[|items| - 1]);
      ValidIds(items[..|items| - 1]) + (if last.Some? then [last.value] else [])
  }

  /** An id is read from an array exactly when some element stands for it. */
  lemma {:induction false} ValidIdsMembers(items: seq<Json>, x: int)
    ensures x in ValidIds(items) <==> exists j :: 0 <= j < |items| && IdOf(items[j]) == Some(x)
  {
    if items != [] {
      var init := items[..|items| - 1];
      ValidIdsMembers(init, x);
      if x in ValidIds(init) {
        var j :| 0 <= j < |init| && IdOf(init[j]) == Some(x);
        assert items[j] == init[j];
      }
      if exists j :: 0 <= j < |items| && IdOf(items[j]) == Some(x) {
        var j :| 0 <= j < |items| && IdOf(items[j]) == Some(x);
        if j < |init| {
          assert init[j] == items[j];
        }
      }
    }
  }

  /** The ids a member's value gives: those of its elements when it is an array, without repeats. */
  function PresetIds(value: Json): seq<int> {
    if value.JArray? then Seqs.Distinct(ValidIds(value.items)) else []
  }

  /** The preset one member of `Presets` gives: none for a blank name or no valid id. */
  function PresetOf(m: Member): (r: Option<BotAdminPreset>)
    ensures r.Some? <==> !Text.IsBlank(m.key) && PresetIds(m.value) != []
    ensures r.Some? ==> r.value == BotAdminPreset(Text.Trim(m.key), PresetIds(m.value))
  {
    var name := Text.Trim(m.key);
    if Text.IsBlank(name) then None
    else
      var ids := PresetIds(m.value);
      if ids == [] then None else Some(BotAdminPreset(name, ids))
  }

  /** The presets of the members, in member order. */
  function Collect(ms: seq<Member>): seq<BotAdminPreset> {
    if ms == [] then []
    else
      var p := PresetOf(ms[|ms| - 1]);
      Collect(ms[..|ms| - 1]) + (if p.Some? then [p.value] else [])
  }

  predicate NameLe(a: BotAdminPreset, b: BotAdminPreset) {
    Sorting.IgnoreCaseLe(a.name, b.name)
  }

  /** What `GetPresetsAsync` returns for a file. */
  function Presets(file: ConfigFile): seq<BotAdminPreset> {
    match PresetsObject(file)
    case None => []
    case Some(ms) => Sorting.SortBy(Collect(ms), NameLe)
  }

  /** Some member of `ms` gives the preset `p`. */
  predicate Produces(ms: seq<Member>, p: BotAdminPreset) {
    Seqs.Any(ms, Gives(p))
  }

  function Gives(p: BotAdminPreset): Member -> bool {
    (m: Member) => PresetOf(m) == Some(p)
  }

  lemma {:induction false} CollectMembers(ms: seq<Member>, p: BotAdminPreset)
    ensures p in Collect(ms) <==> Produces(ms, p)
  {
    if ms != [] {
      var init := ms[..|ms| - 1];
      var last := PresetOf(ms[|ms| - 1]);
      CollectMembers(init, p);
      assert p in Collect(ms) <==> p in Collect(init) || last == Some(p);
      Seqs.AnySnoc(ms, Gives(p));
    }
  }

  /** A preset is listed exactly when some member of the `Presets` object gives it. */
  lemma PresetsMembers(file: ConfigFile, p: BotAdminPreset)
    ensures PresetsObject(file).None? ==> Presets(file) == []
    ensures PresetsObject(file).Some? ==> (p in Presets(file) <==> Produces(PresetsObject(file).value, p))
  {
    if PresetsObject(file).Some? {
      var ms := PresetsObject(file).value;
      Sorting.SortMembers(Collect(ms), NameLe, p);
      CollectMembers(ms, p);
    }
  }

  /** Sorting only reorders: each preset is listed as often as members of `Presets` give it. */
  lemma PresetsCounts(file: ConfigFile)
    ensures PresetsObject(file).Some? ==>
      multiset(Presets(file)) == multiset(Collect(PresetsObject(file).value))
  {
    if PresetsObject(file).Some? {
      Sorting.SortPermutes(Collect(PresetsObject(file).value), NameLe);
    }
  }

  /** Every listed preset has a trimmed, non-blank name and distinct ids above zero. */
  predicate WellFormedPreset(p: BotAdminPreset) {
    && p.name == Text.Trim(p.name)
    && !Text.IsBlank(p.name)
    && p.userIds != []
    && Seqs.NoDuplicates(p.userIds)
    && forall k :: 0 <= k < |p.userIds| ==> 0 < p.userIds[k] <= Text.MaxLong
  }

  lemma PresetOfWellFormed(m: Member)
    requires PresetOf(m).Some?
    ensures WellFormedPreset(PresetOf(m).value)
  {
    Text.TrimIdempotent(m.key);
    var ids := PresetIds(m.value);
    forall k | 0 <= k < |ids| ensures 0 < ids[k] <= Text.MaxLong {
      var vs := ValidIds(m.value.items);
      var j :| 0 <= j < |vs| && vs[j] == ids[k];
    }
  }

  lemma NameLeTotalPreorder()
    ensures Sorting.TotalPreorder(NameLe)
  {
    forall a, b ensures NameLe(a, b) || NameLe(b, a) {
      Sorting.LexLeTotal(Text.ToUpper(a.name), Text.ToUpper(b.name));
    }
    forall a, b, c | NameLe(a, b) && NameLe(b, c) ensures NameLe(a, c) {
      Sorting.LexLeTransitive(Text.ToUpper(a.name), Text.ToUpper(b.name), Text.ToUpper(c.name));
    }
  }

  /**
   * The list is ordered by name ignoring case, and each preset in it has a
   * trimmed non-blank name and a non-empty list of distinct positive ids.
   */
  lemma PresetsShape(file: ConfigFile)
    ensures Sorting.SortedBy(Presets(file), NameLe)
    ensures forall k :: 0 <= k < |Presets(file)| ==> WellFormedPreset(Presets(file)[k])
  {
    if PresetsObject(file).Some? {
      var ms := PresetsObject(file).value;
      NameLeTotalPreorder();
      Sorting.SortSorted(Collect(ms), NameLe);
      forall k | 0 <= k < |Presets(file)| ensures WellFormedPreset(Presets(file)[k]) {
        var p := Presets(file)[k];
        PresetsMembers(file, p);
        var i :| 0 <= i < |ms| && Gives(p)(ms[i]);
        PresetOfWellFormed(ms[i]);
      }
    }
  }

  /** The ids of a listed preset are exactly the ids some element of its array stands for. */
  lemma PresetIdsMembers(items: seq<Json>, x: int)
    ensures x in PresetIds(JArray(items)) <==> exists j :: 0 <= j < |items| && IdOf(items[j]) == Some(x)
  {
    ValidIdsMembers(items, x);
  }

  /** A preset's ids keep the order in which the array first gives them. */
  lemma PresetIdsOrder(items: seq<Json>)
    ensures Seqs.InFirstOrder(ValidIds(items), PresetIds(JArray(items)))
  {
    Seqs.DistinctInFirstOccurrenceOrder(ValidIds(items));
  }

  // --------------------------------------------------------------- writing

  datatype SaveOutcome = Saved | EmptyName | EmptyIds | StorageFailed
  datatype DeleteOutcome = Deleted | NothingDeleted | DeleteFailed

  predicate IsPositive(x: int) {
    x > 0
  }

  predicate AllLong(ids: seq<int>) {
    forall k :: 0 <= k < |ids| ==> Text.MinLong <= ids[k] <= Text.MaxLong
  }

  /** The ids `SavePresetAsync` stores: the positive ones, first occurrences only, in input order. */
  function SavedIds(userIds: Option<seq<int>>): (ids: seq<int>)
    ensures Seqs.NoDuplicates(ids)
    ensures forall k :: 0 <= k < |ids| ==> ids[k] > 0 && ids[k] in userIds.GetOr([])
    ensures forall x :: x in userIds.GetOr([]) && x > 0 ==> x in ids
    ensures Seqs.InFirstOrder(userIds.GetOr([]), ids)
  {
    var s := userIds.GetOr([]);
    Seqs.FilterKeeps(s, IsPositive);
    Seqs.DistinctFilterOrder(s, IsPositive);
    Seqs.Distinct(Seqs.Filter(s, IsPositive))
  }

  /** The array nodes written for the ids. */
  function IdNodes(ids: seq<int>): (r: seq<Json>)
    ensures |r| == |ids| && forall k :: 0 <= k < |ids| ==> r[k] == JInteger(ids[k])
  {
    seq(|ids|, k requires 0 <= k < |ids| => JInteger(ids[k]))
  }

  /** Positive 64-bit ids written out are read back unchanged. */
  lemma {:induction false} ValidIdsOfIdNodes(ids: seq<int>)
    requires forall k :: 0 <= k < |ids| ==> 0 < ids[k] <= Text.MaxLong
    ensures ValidIds(IdNodes(ids)) == ids
  {
    if ids != [] {
      var init := ids[..|ids| - 1];
      assert IdNodes(ids)[..|ids| - 1] == IdNodes(init);
      ValidIdsOfIdNodes(init);
      assert ids == init + [ids[|ids| - 1]];
    }
  }

  /** The root after `Presets[name]` is set to the ids, creating the section and the object as needed. */
  function SaveTree(root: seq<Member>, name: string, ids: seq<int>): seq<Member> {
    var section := ObjectAt(root, SectionKey).GetOr([]);
    var presetsObj := ObjectAt(section, PresetsKey).GetOr([]);
    var presetsObj' := WithMember(presetsObj, name, JArray(IdNodes(ids)));
    var section' := WithMember(section, PresetsKey, JObject(presetsObj'));
    WithMember(root, SectionKey, JObject(section'))
  }

  /** `SavePresetAsync` as a step from the old file to its outcome and the new file. */
  function SaveSpec(file: ConfigFile, name: Option<string>, userIds: Option<seq<int>>): (ConfigFile, SaveOutcome) {
    var n := Text.Trim(name.GetOr(""));
    var ids := SavedIds(userIds);
    if Text.IsBlank(n) then (file, EmptyName)
    else if ids == [] then (file, EmptyIds)
    else
      // the settings file is created as "{}" when it is missing
      var ensured := if file.Missing? then Present(JObject([])) else file;
      if ensured.Corrupt? then (ensured, StorageFailed)
      else if ensured.doc.JNull? then (Present(JObject(SaveTree([], n, ids))), Saved)
      else if ensured.doc.JObject? then (Present(JObject(SaveTree(ensured.doc.members, n, ids))), Saved)
      else (ensured, StorageFailed)
  }

  /** `DeletePresetAsync` as a step from the old file to its outcome and the new file. */
  function DeleteSpec(file: ConfigFile, name: Option<string>): (ConfigFile, DeleteOutcome) {
    var n := Text.Trim(name.GetOr(""));
    if Text.IsBlank(n) || file.Missing? then (file, NothingDeleted)
    else if file.Corrupt? then (file, DeleteFailed)
    else if file.doc.JNull? then (file, NothingDeleted)
    else if !file.doc.JObject? then (file, DeleteFailed)
    else
      var root := file.doc.members;
      match ObjectAt(root, SectionKey)
      case None => (file, NothingDeleted)
      case Some(section) =>
        match ObjectAt(section, PresetsKey)
        case None => (file, NothingDeleted)
        case Some(presetsObj) =>
          if Lookup(presetsObj, n).None? then (file, NothingDeleted)
          else
            var section' := WithMember(section, PresetsKey, JObject(WithoutMember(presetsObj, n)));
            (Present(JObject(WithMember(root, SectionKey, JObject(section')))), Deleted)
  }

  /** The inner loop of `GetPresetsAsync`: the ids of an array's elements, in order. */
  method ReadIds(arr: seq<Json>) returns (ids: seq<int>)
    ensures ids == ValidIds(arr)
  {
    ids := [];
    var j := 0;
    while j < |arr|
      invariant 0 <= j <= |arr|
      invariant ids == ValidIds(arr[..j])
    {
      var node := arr[j];
      assert arr[..j + 1][..j] == arr[..j];
      match node {
        case JInteger(id) =>
          if Text.MinLong <= id <= Text.MaxLong && id > 0 {
            ids := ids + [id];
          }
        case JString(s) =>
          var sid := Text.TryParseLong(s);
          if sid.Some? && sid.value > 0 {
            ids := ids + [sid.value];
          }
        case _ =>
      }
      j := j + 1;
    }
    assert arr[..j] == arr;
  }

  /** The body of the `Presets` loop of `GetPresetsAsync`: the preset one member gives, if any. */
  method ReadPreset(kv: Member) returns (p: Option<BotAdminPreset>)
    ensures p == PresetOf(kv)
  {
    var name := Text.Trim(kv.key);
    if Text.IsBlank(name) {
      return None;
    }
    var ids: seq<int> := [];
    if kv.value.JArray? {
      ids := ReadIds(kv.value.items);
    }
    ids := Seqs.Distinct(ids);
    if ids == [] {
      return None;
    }
    return Some(BotAdminPreset(name, ids));
  }

  /** The `Presets` loop of `GetPresetsAsync`: the presets of the members, in member order. */
  method CollectPresets(ms: seq<Member>) returns (list: seq<BotAdminPreset>)
    ensures list == Collect(ms)
  {
    list := [];
    var i := 0;
    while i < |ms|
      invariant 0 <= i <= |ms|
      invariant list == Collect(ms[..i])
    {
      assert ms[..i + 1][..i] == ms[..i];
      var p := ReadPreset(ms[i]);
      if p.Some? {
        list := list + [p.value];
      }
      i := i + 1;
    }
    assert ms[..i] == ms;
  }

  /** The `arr.Add(id)` loop of `SavePresetAsync`: one integer node per id, in order. */
  method IdArray(ids: seq<int>) returns (arr: seq<Json>)
    ensures arr == IdNodes(ids)
  {
    arr := [];
    var i := 0;
    while i < |ids|
      invariant 0 <= i <= |ids| && |arr| == i
      invariant forall k :: 0 <= k < i ==> arr[k] == JInteger(ids[k])
    {
      arr := arr + [JInteger(ids[i])];
      i := i + 1;
    }
  }

  /** The preset store: the settings file the service reads and rewrites. */
  class BotAdminPresetsService {
    var file: ConfigFile

    constructor (file: ConfigFile)
      ensures this.file == file
    {
      this.file := file;
    }

    /** `GetPresetsAsync`: the presets of the current file, every failure read as none. */
    method GetPresets() returns (list: seq<BotAdminPreset>)
      ensures list == Presets(file)
    {
      if file.Missing? || file.Corrupt? {
        return [];
      }
      var doc := file.doc;
      if !doc.JObject? {
        return [];
      }
      var section := ObjectAt(doc.members, SectionKey);
      if section.None? {
        return [];
      }
      var presetsObj := ObjectAt(section.value, PresetsKey);
      if presetsObj.None? {
        return [];
      }
      list := CollectPresets(presetsObj.value);
      list := Sorting.SortBy(list, NameLe);
    }

    /**
     * `SavePresetAsync`: validation first, then `Presets[name]` set in place
     * and the whole root written back.
     */
    method SavePreset(name: Option<string>, userIds: Option<seq<int>>) returns (outcome: SaveOutcome)
      modifies this
      ensures (file, outcome) == SaveSpec(old(file), name, userIds)
    {
      var n := Text.Trim(name.GetOr(""));
      if Text.IsBlank(n) {
        return EmptyName;
      }
      var ids := SavedIds(userIds);
      if ids == [] {
        return EmptyIds;
      }
      if file.Missing? {
        file := Present(JObject([]));
      }
      if file.Corrupt? {
        return StorageFailed;
      }
      var doc := file.doc;
      if !doc.JNull? && !doc.JObject? {
        return StorageFailed;
      }
      var before := if doc.JObject? then doc.members else [];
      assert SaveSpec(old(file), name, userIds) == (Present(JObject(SaveTree(before, n, ids))), Saved);
      var root := new JsonObjectNode(before);
      var section := new JsonObjectNode(ObjectAt(root.members, SectionKey).GetOr([]));
      var presetsObj := new JsonObjectNode(ObjectAt(section.members, PresetsKey).GetOr([]));
      var arr := IdArray(ids);
      presetsObj.Set(n, JArray(arr));
      section.Set(PresetsKey, JObject(presetsObj.members));
      root.Set(SectionKey, JObject(section.members));
      file := Present(JObject(root.members));
      outcome := Saved;
    }

    /** `DeletePresetAsync`: removes `Presets[name]` and writes the root back, only when it was there. */
    method DeletePreset(name: Option<string>) returns (outcome: DeleteOutcome)
      modifies this
      ensures (file, outcome) == DeleteSpec(old(file), name)
    {
      var n := Text.Trim(name.GetOr(""));
      if Text.IsBlank(n) || file.Missing? {
        return NothingDeleted;
      }
      if file.Corrupt? {
        return DeleteFailed;
      }
      var doc := file.doc;
      if doc.JNull? {
        return NothingDeleted;
      }
      if !doc.JObject? {
        return DeleteFailed;
      }
      var root := new JsonObjectNode(doc.members);
      var sectionMembers := ObjectAt(root.members, SectionKey);
      if sectionMembers.None? {
        return NothingDeleted;
      }
      var section := new JsonObjectNode(sectionMembers.value);
      var presetsMembers := ObjectAt(section.members, PresetsKey);
      if presetsMembers.None? {
        return NothingDeleted;
      }
      var presetsObj := new JsonObjectNode(presetsMembers.value);
      var removed := presetsObj.Remove(n);
      if !removed {
        return NothingDeleted;
      }
      section.Set(PresetsKey, JObject(presetsObj.members));
      root.Set(SectionKey, JObject(section.members));
      file := Present(JObject(root.members));
      outcome := Deleted;
    }
  }

  // ---------------------------------------------------- save and delete

  /** Save rejects a blank trimmed name, then an id list without a positive id, leaving the file as it was. */
  lemma SaveRejections(file: ConfigFile, name: Option<string>, userIds: Option<seq<int>>)
    ensures SaveSpec(file, name, userIds).1 == EmptyName <==> Text.IsBlank(name.GetOr(""))
    ensures SaveSpec(file, name, userIds).1 == EmptyIds <==>
      !Text.IsBlank(name.GetOr("")) && forall k :: 0 <= k < |userIds.GetOr([])| ==> userIds.GetOr([])[k] <= 0
    ensures SaveSpec(file, name, userIds).1 in {EmptyName, EmptyIds} ==> SaveSpec(file, name, userIds).0 == file
  {
    Text.TrimBlank(name.GetOr(""));
    SavedIdsEmpty(userIds);
  }

  /** No id is saved exactly when no input id is positive. */
  lemma SavedIdsEmpty(userIds: Option<seq<int>>)
    ensures SavedIds(userIds) == [] <==> forall k :: 0 <= k < |userIds.GetOr([])| ==> userIds.GetOr([])[k] <= 0
  {
    var s := userIds.GetOr([]);
    if SavedIds(userIds) == [] {
      forall k | 0 <= k < |s| ensures s[k] <= 0 {
        assert s[k] in s;
      }
    } else {
      var x := SavedIds(userIds)[0];
      assert x in s && x > 0;
    }
  }

  /** Past the checks, save fails only on a file that does not parse or whose root is not an object (or null). */
  lemma SaveStorage(file: ConfigFile, name: Option<string>, userIds: Option<seq<int>>)
    ensures SaveSpec(file, name, userIds).1 == StorageFailed <==>
      && !Text.IsBlank(name.GetOr("")) && SavedIds(userIds) != []
      && (file.Corrupt? || (file.Present? && !file.doc.JNull? && !file.doc.JObject?))
    ensures SaveSpec(file, name, userIds).1 == StorageFailed ==> SaveSpec(file, name, userIds).0 == file
  {
    Text.TrimBlank(name.GetOr(""));
  }

  /**
   * Save rejects a blank trimmed name, then an id list without a positive
   * id, leaving the file as it was; otherwise it fails only on a file
   * that does not parse or whose root is not an object (or null).
   */
  lemma SaveOutcomes(file: ConfigFile, name: Option<string>, userIds: Option<seq<int>>)
    ensures var (file', outcome) := SaveSpec(file, name, userIds);
      && (outcome == EmptyName <==> Text.IsBlank(name.GetOr("")))
      && (outcome == EmptyIds <==>
            !Text.IsBlank(name.GetOr("")) && forall k :: 0 <= k < |userIds.GetOr([])| ==> userIds.GetOr([])[k] <= 0)
      && (outcome == EmptyName || outcome == EmptyIds ==> file' == file)
      && (outcome == StorageFailed <==>
            !Text.IsBlank(name.GetOr("")) && SavedIds(userIds) != []
            && (file.Corrupt? || (file.Present? && !file.doc.JNull? && !file.doc.JObject?)))
      && (outcome == StorageFailed ==> file' == file)
  {
    SaveRejections(file, name, userIds);
    SaveStorage(file, name, userIds);
  }

  /** The member a save writes gives back the trimmed name and the saved ids. */
  lemma SavedMemberPreset(name: Option<string>, userIds: Option<seq<int>>)
    requires AllLong(userIds.GetOr([]))
    requires !Text.IsBlank(Text.Trim(name.GetOr(""))) && SavedIds(userIds) != []
    ensures var n := Text.Trim(name.GetOr(""));
      PresetOf(Member(n, JArray(IdNodes(SavedIds(userIds))))) == Some(BotAdminPreset(n, SavedIds(userIds)))
  {
    var ids := SavedIds(userIds);
    forall k | 0 <= k < |ids| ensures 0 < ids[k] <= Text.MaxLong {
      var s := userIds.GetOr([]);
      var j :| 0 <= j < |s| && s[j] == ids[k];
    }
    ValidIdsOfIdNodes(ids);
    Seqs.DistinctOfDistinct(ids);
    Text.TrimIdempotent(name.GetOr(""));
  }

  /** After a save, reading the file lists the preset under the trimmed name with the saved ids. */
  lemma SaveThenGet(file: ConfigFile, name: Option<string>, userIds: Option<seq<int>>)
    requires AllLong(userIds.GetOr([]))
    ensures SaveSpec(file, name, userIds).1 == Saved ==>
      BotAdminPreset(Text.Trim(name.GetOr("")), SavedIds(userIds)) in Presets(SaveSpec(file, name, userIds).0)
  {
    var (file', outcome) := SaveSpec(file, name, userIds);
    if outcome == Saved {
      var n := Text.Trim(name.GetOr(""));
      var p := BotAdminPreset(n, SavedIds(userIds));
      var node := JArray(IdNodes(SavedIds(userIds)));
      var ms := SaveTreePresets(file, name, userIds);
      var ms' := WithMember(ms, n, node);
      WithMemberLookup(ms, n, node);
      assert Member(n, node) in ms';
      SavedMemberPreset(name, userIds);
      Seqs.AnyIn(ms', Member(n, node), Gives(p));
      PresetsMembers(file', p);
    }
  }

  /**
   * A save leaves every other root key and every other section key as it
   * was, and changes only the one member of `Presets`.
   */
  lemma SaveKeepsOtherKeys(root: seq<Member>, name: string, ids: seq<int>)
    ensures var root' := SaveTree(root, name, ids);
      && (forall k :: k != SectionKey ==> Lookup(root', k) == Lookup(root, k))
      && ObjectAt(root', SectionKey).Some?
      && (forall k :: k != PresetsKey ==>
            Lookup(ObjectAt(root', SectionKey).value, k) == Lookup(ObjectAt(root, SectionKey).GetOr([]), k))
      && ObjectAt(ObjectAt(root', SectionKey).value, PresetsKey)
           == Some(WithMember(ObjectAt(ObjectAt(root, SectionKey).GetOr([]), PresetsKey).GetOr([]), name, JArray(IdNodes(ids))))
  {
    var section := ObjectAt(root, SectionKey).GetOr([]);
    var presetsObj := ObjectAt(section, PresetsKey).GetOr([]);
    var presetsObj' := WithMember(presetsObj, name, JArray(IdNodes(ids)));
    WithMemberLookup(section, PresetsKey, JObject(presetsObj'));
    WithMemberLookup(root, SectionKey, JObject(WithMember(section, PresetsKey, JObject(presetsObj'))));
  }

  /** The root a file stands for: its members when it is an object, none otherwise. */
  function RootMembers(file: ConfigFile): seq<Member> {
    if file.Present? && file.doc.JObject? then file.doc.members else []
  }

  /** A save that succeeded wrote the file's root with the trimmed name set to the saved ids. */
  lemma SavedFile(file: ConfigFile, name: Option<string>, userIds: Option<seq<int>>)
    requires SaveSpec(file, name, userIds).1 == Saved
    ensures SaveSpec(file, name, userIds).0
      == Present(JObject(SaveTree(RootMembers(file), Text.Trim(name.GetOr("")), SavedIds(userIds))))
  {
  }

  /** The members of `Presets` a save leaves: the old ones, with `name`'s value replaced or added. */
  lemma SaveTreePresets(file: ConfigFile, name: Option<string>, userIds: Option<seq<int>>) returns (presetsObj: seq<Member>)
    requires SaveSpec(file, name, userIds).1 == Saved
    ensures PresetsObject(file).Some? ==> presetsObj == PresetsObject(file).value
    ensures PresetsObject(file).None? ==> presetsObj == []
    ensures PresetsObject(SaveSpec(file, name, userIds).0)
      == Some(WithMember(presetsObj, Text.Trim(name.GetOr("")), JArray(IdNodes(SavedIds(userIds)))))
  {
    var root := RootMembers(file);
    presetsObj := ObjectAt(ObjectAt(root, SectionKey).GetOr([]), PresetsKey).GetOr([]);
    SavedFile(file, name, userIds);
    SaveKeepsOtherKeys(root, Text.Trim(name.GetOr("")), SavedIds(userIds));
  }

  lemma ProducesKeptBySet(ms: seq<Member>, n: string, node: Json, p: BotAdminPreset)
    requires p.name != Text.Trim(n) && Produces(ms, p)
    ensures Produces(WithMember(ms, n, node), p)
  {
    var i :| 0 <= i < |ms| && Gives(p)(ms[i]);
    assert ms[i].key != n;
    WithMemberMembers(ms, n, node, ms[i]);
    Seqs.AnyIn(WithMember(ms, n, node), ms[i], Gives(p));
  }

  lemma ProducesBeforeSet(ms: seq<Member>, n: string, node: Json, p: BotAdminPreset)
    requires p.name != Text.Trim(n) && Produces(WithMember(ms, n, node), p)
    ensures Produces(ms, p)
  {
    var ms' := WithMember(ms, n, node);
    var j :| 0 <= j < |ms'| && Gives(p)(ms'[j]);
    assert ms'[j].key != n;
    WithMemberMembers(ms, n, node, ms'[j]);
    Seqs.AnyIn(ms, ms'[j], Gives(p));
  }

  /** Setting a member changes nothing the other members give, under names other than its own. */
  lemma ProducesWithMember(ms: seq<Member>, n: string, node: Json, p: BotAdminPreset)
    requires p.name != Text.Trim(n)
    ensures Produces(WithMember(ms, n, node), p) <==> Produces(ms, p)
  {
    if Produces(ms, p) {
      ProducesKeptBySet(ms, n, node, p);
    }
    if Produces(WithMember(ms, n, node), p) {
      ProducesBeforeSet(ms, n, node, p);
    }
  }

  /** A save lists the same presets as before under every other name. */
  lemma SaveKeepsOtherPresets(file: ConfigFile, name: Option<string>, userIds: Option<seq<int>>, p: BotAdminPreset)
    requires SaveSpec(file, name, userIds).1 == Saved
    requires p.name != Text.Trim(name.GetOr(""))
    ensures p in Presets(SaveSpec(file, name, userIds).0) <==> p in Presets(file)
  {
    var n := Text.Trim(name.GetOr(""));
    var ms := SaveTreePresets(file, name, userIds);
    PresetsMembers(file, p);
    PresetsMembers(SaveSpec(file, name, userIds).0, p);
    Text.TrimIdempotent(name.GetOr(""));
    ProducesWithMember(ms, n, JArray(IdNodes(SavedIds(userIds))), p);
  }

  /**
   * Delete writes only when the trimmed name is a key of an existing
   * `Presets` object; it fails only on a file that does not parse or
   * whose root is not an object (or null).
   */
  lemma DeleteOutcomes(file: ConfigFile, name: Option<string>)
    ensures var (file', outcome) := DeleteSpec(file, name);
      && (outcome != Deleted ==> file' == file)
      && (outcome == Deleted <==>
            !Text.IsBlank(name.GetOr("")) && PresetsObject(file).Some?
            && Lookup(PresetsObject(file).value, Text.Trim(name.GetOr(""))).Some?)
      && (outcome == DeleteFailed <==>
            !Text.IsBlank(name.GetOr("")) && (file.Corrupt? || (file.Present? && !file.doc.JNull? && !file.doc.JObject?)))
  {
  }

  /** A delete that succeeded found the section and the `Presets` object, and rewrote exactly that path. */
  lemma DeletedShape(file: ConfigFile, name: Option<string>) returns (section: seq<Member>, presetsObj: seq<Member>)
    requires DeleteSpec(file, name).1 == Deleted
    ensures file.Present? && file.doc.JObject?
    ensures ObjectAt(file.doc.members, SectionKey) == Some(section)
    ensures ObjectAt(section, PresetsKey) == Some(presetsObj) && PresetsObject(file) == Some(presetsObj)
    ensures Lookup(presetsObj, Text.Trim(name.GetOr(""))).Some?
    ensures DeleteSpec(file, name).0 == Present(JObject(WithMember(file.doc.members, SectionKey,
      JObject(WithMember(section, PresetsKey, JObject(WithoutMember(presetsObj, Text.Trim(name.GetOr("")))))))))
  {
    section := ObjectAt(file.doc.members, SectionKey).value;
    presetsObj := ObjectAt(section, PresetsKey).value;
  }

  /** After a delete, the `Presets` object is the old one without the name's member. */
  lemma DeletedPresetsObject(file: ConfigFile, name: Option<string>)
    requires DeleteSpec(file, name).1 == Deleted
    ensures PresetsObject(file).Some?
    ensures PresetsObject(DeleteSpec(file, name).0) == Some(WithoutMember(PresetsObject(file).value, Text.Trim(name.GetOr(""))))
  {
    var n := Text.Trim(name.GetOr(""));
    var section, presetsObj := DeletedShape(file, name);
    var section' := WithMember(section, PresetsKey, JObject(WithoutMember(presetsObj, n)));
    WithMemberLookup(section, PresetsKey, JObject(WithoutMember(presetsObj, n)));
    WithMemberLookup(file.doc.members, SectionKey, JObject(section'));
  }

  /**
   * A delete leaves every other root key and every other section key, the
   * `Presets` object loses the name's member and, with unique keys, the
   * name is gone from it.
   */
  lemma DeleteKeepsOtherKeys(file: ConfigFile, name: Option<string>)
    requires DeleteSpec(file, name).1 == Deleted
    ensures file.Present? && file.doc.JObject? && PresetsObject(file).Some?
    ensures DeleteSpec(file, name).0.Present? && DeleteSpec(file, name).0.doc.JObject?
    ensures forall k :: k != SectionKey ==>
      Lookup(DeleteSpec(file, name).0.doc.members, k) == Lookup(file.doc.members, k)
    ensures ObjectAt(file.doc.members, SectionKey).Some?
    ensures ObjectAt(DeleteSpec(file, name).0.doc.members, SectionKey).Some?
    ensures forall k :: k != PresetsKey ==>
      Lookup(ObjectAt(DeleteSpec(file, name).0.doc.members, SectionKey).value, k)
        == Lookup(ObjectAt(file.doc.members, SectionKey).value, k)
    ensures PresetsObject(DeleteSpec(file, name).0) == Some(WithoutMember(PresetsObject(file).value, Text.Trim(name.GetOr(""))))
    ensures KeysUnique(PresetsObject(file).value) ==>
      Lookup(PresetsObject(DeleteSpec(file, name).0).value, Text.Trim(name.GetOr(""))).None?
  {
    var n := Text.Trim(name.GetOr(""));
    var section, presetsObj := DeletedShape(file, name);
    var section' := WithMember(section, PresetsKey, JObject(WithoutMember(presetsObj, n)));
    WithMemberLookup(section, PresetsKey, JObject(WithoutMember(presetsObj, n)));
    WithMemberLookup(file.doc.members, SectionKey, JObject(section'));
    if KeysUnique(presetsObj) {
      WithoutUniqueKey(presetsObj, n);
    }
  }

  /** Removing a member adds nothing, and changes nothing under names other than its own. */
  lemma ProducesWithoutMember(ms: seq<Member>, n: string, p: BotAdminPreset)
    ensures Produces(WithoutMember(ms, n), p) ==> Produces(ms, p)
    ensures p.name != Text.Trim(n) ==> (Produces(WithoutMember(ms, n), p) <==> Produces(ms, p))
  {
    var ms' := WithoutMember(ms, n);
    if Produces(ms', p) {
      var j :| 0 <= j < |ms'| && Gives(p)(ms'[j]);
      WithoutMemberMembers(ms, n, ms'[j]);
      Seqs.AnyIn(ms, ms'[j], Gives(p));
    }
    if Produces(ms, p) && p.name != Text.Trim(n) {
      var i :| 0 <= i < |ms| && Gives(p)(ms[i]);
      assert ms[i].key != n;
      WithoutMemberMembers(ms, n, ms[i]);
      Seqs.AnyIn(ms', ms[i], Gives(p));
    }
  }

  /** A delete never adds a preset, and keeps every preset under another name. */
  lemma DeleteKeepsOtherPresets(file: ConfigFile, name: Option<string>, p: BotAdminPreset)
    ensures p in Presets(DeleteSpec(file, name).0) ==> p in Presets(file)
    ensures p.name != Text.Trim(name.GetOr("")) ==> (p in Presets(DeleteSpec(file, name).0) <==> p in Presets(file))
  {
    var (file', outcome) := DeleteSpec(file, name);
    if outcome == Deleted {
      var n := Text.Trim(name.GetOr(""));
      DeletedPresetsObject(file, name);
      Text.TrimIdempotent(name.GetOr(""));
      ProducesWithoutMember(PresetsObject(file).value, n, p);
      PresetsMembers(file, p);
      PresetsMembers(file', p);
    } else {
      assert file' == file;
    }
  }
}
