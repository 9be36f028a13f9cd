/** The pure logic of the item search in script.js: the item record, the
    category inferred from the index prefix (`getItemType`), the number read
    from the effect field (`getEffectValue`), the per-item filter predicate of
    `performSearch`, the effect comparator of `sortItemsByEffect`, the acquired
    map toggle and progress percentage, the main-character / character-group
    drop-down coupling, and the companion (crew) filter. */
module ItemRecords {
  import opened Wrappers
  import opened Text
  import opened Seqs
  import opened Sorting

  /** One group entry of an object-valued region: the key is absent, JSON
      `null`, or a string. */
  datatype Slot = Missing | Null | Value(s: string)

  /** The region field (지역): absent or null, a plain name, or an object with
      an old-character (구 캐릭터) and a new-character (신 캐릭터) entry. */
  datatype Region = NoRegion | Named(name: string) | PerGroup(oldGroup: Slot, newGroup: Slot)

  /** The effect field (효과): absent, a number or a string. */
  datatype Effect = NoEffect | Number(n: int) | Phrase(s: string)

  /** An item of the catalog. For `name`, `kind` (종류) and `position` (보직)
      the empty string stands for absent, null and empty alike, all of which
      the source treats as false; `index` (인덱스) keeps absence apart, because
      an absent index is looked up in the acquired map as "undefined". */
  datatype Item = Item(name: string, index: Option<string>, kind: string, position: string,
                       region: Region, effect: Effect)

  const Weapon := "무기"
  const Armour := "방어구"
  const Equipment := "장비품"
  const Figurehead := "선수상"
  const Keepsake := "여성이 동경하는 물건"
  const Produce := "원산물"
  const Supplies := "항해용품"

  /** The index prefixes `getItemType` checks, in its order, with their category. */
  const PrefixKinds: seq<(string, string)> := [
    ("item_w_", Weapon), ("item_a_", Armour), ("item_e_", Equipment), ("item_f_", Figurehead),
    ("item_g_", Keepsake), ("item_p_", Produce), ("item_c_", Supplies)]

  /** A string the source tests as true: present and not empty. */
  predicate Present(o: Option<string>) {
    o.Some? && o.value != ""
  }

  /** The category of the first prefix in `table` that starts `index`, or
      Equipment when none does. */
  function KindByPrefix(index: string, table: seq<(string, string)>): (r: string)
    ensures r == Equipment || exists i :: 0 <= i < |table| && table[i].0 <= index && r == table[i].1
  {
    if table == [] then Equipment
    else if table[0].0 <= index then table[0].1
    else KindByPrefix(index, table[1..])
  }

  /** `getItemType`: an explicit kind wins; otherwise the index prefix decides,
      and an item without index or with an unknown prefix is Equipment. */
  function ItemType(item: Item): (r: string)
    ensures r != ""
    ensures item.kind != "" ==> r == item.kind
    ensures item.kind == "" ==> r in {Weapon, Armour, Equipment, Figurehead, Keepsake, Produce, Supplies}
  {
    if item.kind != "" then item.kind
    else if !Present(item.index) then Equipment
    else KindByPrefix(item.index.value, PrefixKinds)
  }

  /** Without an explicit kind, an index starting with the `i`-th prefix gets
      the `i`-th category: the prefixes are distinct and of equal length, so at
      most one of them starts any index. */
  lemma ItemTypeFromPrefix(item: Item, i: nat)
    requires item.kind == "" && item.index.Some? && i < |PrefixKinds|
    requires PrefixKinds[i].0 <= item.index.value
    ensures ItemType(item) == PrefixKinds[i].1
  {
    var s := item.index.value;
    assert Present(item.index);
    forall j | 0 <= j < |PrefixKinds| && j != i ensures !(PrefixKinds[j].0 <= s) {
      assert |PrefixKinds[j].0| == |PrefixKinds[i].0| == 7;
      assert PrefixKinds[j].0 != PrefixKinds[i].0;
    }
    KindByPrefixFirst(s, PrefixKinds, i);
  }

  lemma {:induction false} KindByPrefixFirst(s: string, table: seq<(string, string)>, i: nat)
    requires i < |table| && table[i].0 <= s
    requires forall j :: 0 <= j < i ==> !(table[j].0 <= s)
    ensures KindByPrefix(s, table) == table[i].1
  {
    if i > 0 {
      KindByPrefixFirst(s, table[1..], i - 1);
    }
  }

  /** Without an explicit kind, an item whose index is absent, empty or has
      none of the prefixes is Equipment. */
  lemma ItemTypeDefault(item: Item)
    requires item.kind == ""
    requires item.index.Some? ==> forall i :: 0 <= i < |PrefixKinds| ==> !(PrefixKinds[i].0 <= item.index.value)
    ensures ItemType(item) == Equipment
  {
  }

  // ---- getEffectValue ----

  predicate IsDigit(c: char) {
    '0' <= c <= '9'
  }

  predicate AllDigits(s: string) {
    forall k :: 0 <= k < |s| ==> IsDigit(s[k])
  }

  /** The decimal value of a string of digits (`parseInt` of a digit run). */
  function DigitsValue(ds: string): nat
    requires AllDigits(ds)
  {
    if ds == [] then 0
    else DigitsValue(ds[..|ds| - 1]) * 10 + (ds[|ds| - 1] as int - '0' as int)
  }

  /** The longest prefix of `s` made of digits. */
  function LeadingDigits(s: string): (r: string)
    ensures r <= s && AllDigits(r)
    ensures |r| == |s| || !IsDigit(s[|r|])
  {
    if s != [] && IsDigit(s[0]) then [s[0]] + LeadingDigits(s[1..]) else []
  }

  /** `s.match(/\d+/)` read with `parseInt`: the value of the first maximal run
      of digits, or None when `s` has no digit. */
  function FirstNumber(s: string): (r: Option<nat>)
    ensures r.None? <==> forall k :: 0 <= k < |s| ==> !IsDigit(s[k])
  {
    if s == [] then None
    else if IsDigit(s[0]) then Some(DigitsValue(LeadingDigits(s)))
    else FirstNumber(s[1..])
  }

  /** `getEffectValue`: 0 for an absent or false effect, the number itself, or
      the first number written in the string. */
  function EffectValue(e: Effect): (r: int)
    ensures e.Number? ==> r == e.n
    ensures e.NoEffect? ==> r == 0
    ensures e.Phrase? ==> r >= 0
  {
    match e
    case NoEffect => 0
    case Number(n) => n
    case Phrase(s) => if s == "" then 0 else FirstNumber(s).GetOr(0)
  }

  /** A string effect without any digit is worth 0. */
  lemma {:induction false} NoDigitNoEffect(s: string)
    requires forall k :: 0 <= k < |s| ==> !IsDigit(s[k])
    ensures FirstNumber(s) == None
    ensures EffectValue(Phrase(s)) == 0
  {
    if s != [] {
      NoDigitNoEffect(s[1..]);
    }
  }

  /** A string effect with a digit is worth the value of its first maximal
      digit run `s[i..j]`: nothing before `i` is a digit, and `j` ends the run. */
  lemma {:induction false} EffectDigitRun(s: string) returns (i: nat, j: nat)
    requires exists k :: 0 <= k < |s| && IsDigit(s[k])
    ensures i < j <= |s| && AllDigits(s[i..j])
    ensures forall k :: 0 <= k < i ==> !IsDigit(s[k])
    ensures j == |s| || !IsDigit(s[j])
    ensures FirstNumber(s) == Some(DigitsValue(s[i..j]))
    ensures EffectValue(Phrase(s)) == DigitsValue(s[i..j])
  {
    i, j := FirstDigitRun(s);
  }

  /** The first maximal digit run of `s` and the value `FirstNumber` reads. */
  lemma {:induction false} FirstDigitRun(s: string) returns (i: nat, j: nat)
    requires exists k :: 0 <= k < |s| && IsDigit(s[k])
    ensures i < j <= |s| && AllDigits(s[i..j])
    ensures forall k :: 0 <= k < i ==> !IsDigit(s[k])
    ensures j == |s| || !IsDigit(s[j])
    ensures FirstNumber(s) == Some(DigitsValue(s[i..j]))
  {
    if IsDigit(s[0]) {
      var run := LeadingDigits(s);
      i, j := 0, |run|;
      assert run == s[..j];
    } else {
      var k :| 0 <= k < |s| && IsDigit(s[k]);
      assert IsDigit(s[1..][k - 1]);
      var i', j' := FirstDigitRun(s[1..]);
      i, j := i' + 1, j' + 1;
      ShiftRun(s, i', j');
    }
  }

  /** A run found in `s[1..]` is, shifted by one, a run of `s`. */
  lemma ShiftRun(s: string, i': nat, j': nat)
    requires s != [] && !IsDigit(s[0])
    requires i' < j' <= |s[1..]| && AllDigits(s[1..][i'..j'])
    requires forall k :: 0 <= k < i' ==> !IsDigit(s[1..][k])
    requires j' == |s[1..]| || !IsDigit(s[1..][j'])
    ensures s[i' + 1..j' + 1] == s[1..][i'..j']
    ensures forall k :: 0 <= k < i' + 1 ==> !IsDigit(s[k])
    ensures j' + 1 == |s| || !IsDigit(s[j' + 1])
  {
    forall k | 0 <= k < i' + 1 ensures !IsDigit(s[k]) {
      if k > 0 {
        assert s[k] == s[1..][k - 1];
      }
    }
  }

  // ---- the filter predicate of performSearch ----

  const OldGroup := "구 캐릭터"
  const NewGroup := "신 캐릭터"

  /** The drop-down values of one search: type, position, region, character
      group, main character and acquired state ("" = all). */
  datatype Selections = Selections(kind: string, position: string, region: string,
                                   group: string, mainCharacter: string, acquired: string)

  /** The search term `performSearch` filters with: lower-cased, then
      trimmed. It is never longer than the input and is already trimmed. */
  function SearchTerm(searchValue: string, lower: CaseMap): (r: string)
    ensures |r| <= |searchValue|
    ensures Trim(r) == r
  {
    TrimIdempotent(Lower(searchValue, lower));
    Trim(Lower(searchValue, lower))
  }

  /** An item with neither a name nor an index is never listed. */
  predicate HasIdentity(item: Item) {
    item.name != "" || Present(item.index)
  }

  predicate TextMatch(item: Item, term: string, lower: CaseMap) {
    || term == ""
    || (item.name != "" && Contains(Lower(item.name, lower), term))
    || (Present(item.index) && Contains(Lower(item.index.value, lower), term))
  }

  predicate KindMatch(item: Item, selected: string) {
    selected == "" || ItemType(item) == selected
  }

  predicate PositionMatch(item: Item, selected: string) {
    selected == "" || (item.position != "" && item.position == selected)
  }

  /** A region filter fails items without a region; a plain name must equal
      the selection; an object matches through either of its entries. */
  predicate RegionMatch(item: Item, selected: string) {
    selected == "" ||
    match item.region
    case NoRegion => false
    case Named(n) => n != "" && n == selected
    case PerGroup(o, n) => o == Value(selected) || n == Value(selected)
  }

  /** The character-group filter: a plain-name region always passes; an
      object region passes unless the selected group's entry is `null`. */
  predicate GroupMatch(item: Item, selected: string) {
    (selected == OldGroup || selected == NewGroup) ==>
      match item.region
      case NoRegion => false
      case Named(n) => n != ""
      case PerGroup(o, n) => (if selected == OldGroup then o else n) != Null
  }

  /** The key the acquired map is consulted with: the index, or "undefined"
      for an item without one. */
  function AcquiredKey(item: Item): string {
    match item.index
    case Some(s) => s
    case None => "undefined"
  }

  predicate IsAcquired(acquired: map<string, bool>, key: string) {
    key in acquired && acquired[key]
  }

  predicate AcquiredMatch(item: Item, selected: string, acquired: map<string, bool>) {
    if selected == "acquired" then IsAcquired(acquired, AcquiredKey(item))
    else if selected == "not-acquired" then !IsAcquired(acquired, AcquiredKey(item))
    else true
  }

  /** The whole per-item test of `performSearch`, the conjunction of the
      dimensions above. The main-character test is left out because
      `checkMainCharacterCondition` accepts every item. */
  predicate Matches(item: Item, term: string, sel: Selections, acquired: map<string, bool>, lower: CaseMap) {
    && HasIdentity(item)
    && TextMatch(item, term, lower)
    && KindMatch(item, sel.kind)
    && PositionMatch(item, sel.position)
    && RegionMatch(item, sel.region)
    && GroupMatch(item, sel.group)
    && AcquiredMatch(item, sel.acquired, acquired)
  }

  /** The `items.filter(...)` of `performSearch`. */
  function SearchResult(items: seq<Item>, term: string, sel: Selections, acquired: map<string, bool>,
                        lower: CaseMap): (r: seq<Item>)
    ensures |r| <= |items|
  {
    Filter(items, x => Matches(x, term, sel, acquired, lower))
  }

  /** The result is an order-preserving subsequence of the catalog holding
      exactly the items that meet every criterion. */
  lemma SearchResultSpec(items: seq<Item>, term: string, sel: Selections, acquired: map<string, bool>,
                         lower: CaseMap)
    ensures IsSubsequence(SearchResult(items, term, sel, acquired, lower), items)
    ensures forall x :: x in SearchResult(items, term, sel, acquired, lower) <==>
      x in items && Matches(x, term, sel, acquired, lower)
  {
    FilterSubsequence(items, x => Matches(x, term, sel, acquired, lower));
  }

  const AllSelections := Selections("", "", "", "", "", "")

  // ---- updatePositionFilter ----

  /** Some equipment item of the catalog has this (non-empty) position: the
      position is one of the options the drop-down is rebuilt with. */
  predicate OffersPosition(items: seq<Item>, position: string) {
    position != "" && exists i :: 0 <= i < |items| && ItemType(items[i]) == Equipment && items[i].position == position
  }

  /** `updatePositionFilter`: the position selection after a filter change.
      Only equipment has positions; rebuilding the options clears the
      selection, and it is restored only when it is still offered. */
  function PositionSelectionFor(items: seq<Item>, kind: string, position: string): (r: string)
    ensures r == "" || r == position
    ensures r != "" <==> kind == Equipment && OffersPosition(items, position)
    ensures r != "" ==> exists i :: 0 <= i < |items| && KindMatch(items[i], kind) && PositionMatch(items[i], r)
  {
    if kind == Equipment && OffersPosition(items, position) then position else ""
  }

  /** With an empty term and every drop-down on "all", exactly the items that
      have a name or an index are listed, in catalog order. */
  lemma EmptyCriteriaKeepIdentified(items: seq<Item>, acquired: map<string, bool>, lower: CaseMap)
    ensures SearchResult(items, "", AllSelections, acquired, lower) == Filter(items, HasIdentity)
  {
    FilterCongruent(items, x => Matches(x, "", AllSelections, acquired, lower), HasIdentity);
  }

  /** `wide` clears some of the criteria of (`term`, `sel`) and keeps the rest. */
  predicate Widens(wideTerm: string, wide: Selections, term: string, sel: Selections) {
    && (wideTerm == term || wideTerm == "")
    && (wide.kind == sel.kind || wide.kind == "")
    && (wide.position == sel.position || wide.position == "")
    && (wide.region == sel.region || wide.region == "")
    && (wide.group == sel.group || wide.group == "")
    && (wide.mainCharacter == sel.mainCharacter || wide.mainCharacter == "")
    && (wide.acquired == sel.acquired || wide.acquired == "")
  }

  /** An empty selection is a wildcard: clearing criteria never loses an item,
      and the narrower result is the wider one filtered again. */
  lemma ClearingWidens(items: seq<Item>, term: string, sel: Selections, wideTerm: string, wide: Selections,
                       acquired: map<string, bool>, lower: CaseMap)
    requires Widens(wideTerm, wide, term, sel)
    ensures IsSubsequence(SearchResult(items, term, sel, acquired, lower),
                          SearchResult(items, wideTerm, wide, acquired, lower))
    ensures Filter(SearchResult(items, wideTerm, wide, acquired, lower), x => Matches(x, term, sel, acquired, lower))
            == SearchResult(items, term, sel, acquired, lower)
  {
    FilterNarrows(items, x => Matches(x, term, sel, acquired, lower), x => Matches(x, wideTerm, wide, acquired, lower));
  }

  // ---- sortItemsByEffect ----

  predicate Ranked(item: Item) {
    ItemType(item) == Weapon || ItemType(item) == Armour
  }

  /** The comparator of `sortItemsByEffect`: 0 when neither item is a weapon or
      armour, otherwise the effect difference, higher effect first. */
  function EffectCompare(a: Item, b: Item): int {
    if !Ranked(a) && !Ranked(b) then 0 else EffectValue(b.effect) - EffectValue(a.effect)
  }

  function EffectSorted(s: seq<Item>): (r: seq<Item>)
    ensures multiset(r) == multiset(s)
  {
    SortBy(s, EffectCompare)
  }

  /** When every item is a weapon or armour, the result is in non-increasing
      order of effect. */
  lemma RankedByEffect(s: seq<Item>)
    requires forall x :: x in s ==> Ranked(x)
    ensures forall i, j :: 0 <= i < j < |EffectSorted(s)| ==>
      EffectValue(EffectSorted(s)[i].effect) >= EffectValue(EffectSorted(s)[j].effect)
  {
    var key := (x: Item) => -EffectValue(x.effect);
    assert OrdersAsKey(s, EffectCompare, key);
    SortByAscending(s, EffectCompare, key);
  }

  /** Items that are neither weapon nor armour keep their relative order. */
  lemma UnrankedKeepOrder(s: seq<Item>)
    ensures Filter(EffectSorted(s), x => !Ranked(x)) == Filter(s, x => !Ranked(x))
  {
    SortByKeepsOrderOf(s, EffectCompare, x => !Ranked(x));
  }

  /** Weapons and armour of equal effect keep their relative order. */
  lemma EqualEffectKeepOrder(s: seq<Item>, v: int)
    ensures Filter(EffectSorted(s), x => Ranked(x) && EffectValue(x.effect) == v)
         == Filter(s, x => Ranked(x) && EffectValue(x.effect) == v)
  {
    SortByKeepsOrderOf(s, EffectCompare, x => Ranked(x) && EffectValue(x.effect) == v);
  }

  /** A list without weapons and armour is not reordered. */
  lemma UnrankedUnchanged(s: seq<Item>)
    requires forall x :: x in s ==> !Ranked(x)
    ensures EffectSorted(s) == s
  {
    SortByIdentity(s, EffectCompare);
  }

  /** The comparator is not an ordering on mixed lists: a produce item with a
      large effect number still compares against weapons by effect, so it
      moves in front of them. */
  lemma MixedListExample()
    ensures EffectSorted([Armed(10), Armed(50), Cargo(999)]) == [Cargo(999), Armed(50), Armed(10)]
  {
    var w10, w50, p999 := Armed(10), Armed(50), Cargo(999);
    ExampleComparisons();
    ExampleFirstTwo();
    assert [w10, w50, p999][..2] == [w10, w50];
    assert SortBy([w10, w50, p999], EffectCompare) == Insert([w50, w10], p999, EffectCompare);
    ExampleLastInsert();
  }

  lemma ExampleFirstTwo()
    requires EffectCompare(Armed(10), Armed(50)) > 0
    ensures SortBy([Armed(10), Armed(50)], EffectCompare) == [Armed(50), Armed(10)]
  {
    var w10, w50 := Armed(10), Armed(50);
    assert [w10][..0] == [];
    assert SortBy([w10], EffectCompare) == Insert([], w10, EffectCompare) == [w10];
    assert [w10, w50][..1] == [w10];
    assert SortBy([w10, w50], EffectCompare) == Insert([w10], w50, EffectCompare);
    assert [w10][..0] == [];
    assert Insert([w10], w50, EffectCompare) == Insert([], w50, EffectCompare) + [w10];
  }

  lemma ExampleLastInsert()
    requires EffectCompare(Armed(10), Cargo(999)) > 0 && EffectCompare(Armed(50), Cargo(999)) > 0
    ensures Insert([Armed(50), Armed(10)], Cargo(999), EffectCompare) == [Cargo(999), Armed(50), Armed(10)]
  {
    var w10, w50, p999 := Armed(10), Armed(50), Cargo(999);
    assert [w50, w10][..1] == [w50];
    assert Insert([], p999, EffectCompare) == [p999];
    assert Insert([w50], p999, EffectCompare) == [p999, w50];
  }

  lemma ExampleComparisons()
    ensures EffectCompare(Armed(10), Armed(50)) == 40
    ensures EffectCompare(Armed(10), Cargo(999)) == 989
    ensures EffectCompare(Armed(50), Cargo(999)) == 949
  {
    ItemTypeFromPrefix(Armed(10), 0);
    ItemTypeFromPrefix(Armed(50), 0);
    ItemTypeFromPrefix(Cargo(999), 5);
  }

  /** A weapon with the given effect. */
  function Armed(effect: int): Item {
    Item("w", Some("item_w_1"), "", "", NoRegion, Number(effect))
  }

  /** A produce item with the given effect. */
  function Cargo(effect: int): Item {
    Item("p", Some("item_p_1"), "", "", NoRegion, Number(effect))
  }

  // ---- toggleAcquiredItem and updateStats ----

  /** `toggleAcquiredItem`: a key that is set to true is deleted, any other key
      is set to true. */
  function Toggled(acquired: map<string, bool>, key: string): (r: map<string, bool>)
    ensures IsAcquired(r, key) == !IsAcquired(acquired, key)
    ensures r.Keys == if IsAcquired(acquired, key) then acquired.Keys - {key} else acquired.Keys + {key}
    ensures forall k :: k in r && k != key ==> r[k] == acquired[k]
  {
    if IsAcquired(acquired, key) then acquired - {key} else acquired[key := true]
  }

  /** Toggling a key twice restores the map (unless the key was stored as false). */
  lemma ToggleTwice(acquired: map<string, bool>, key: string)
    requires key in acquired ==> acquired[key]
    ensures Toggled(Toggled(acquired, key), key) == acquired
  {
    var once := Toggled(acquired, key);
    var twice := Toggled(once, key);
    assert twice.Keys == acquired.Keys;
    forall k | k in twice ensures twice[k] == acquired[k] {
      if k == key {
        assert IsAcquired(acquired, key);
      }
    }
  }

  /** `Math.round(acquired / total * 100)`, 0 when there are no items: the
      integer nearest to the exact percentage, halves rounded up; with no
      more acquired keys than items it lies in [0, 100]. */
  function Percent(acquired: nat, total: nat): (p: int)
    ensures total == 0 ==> p == 0
    ensures total > 0 ==> 2 * p * total - total <= 200 * acquired < 2 * p * total + total
    ensures acquired <= total ==> 0 <= p <= 100
  {
    if total == 0 then 0
    else
      var q := (200 * acquired + total) / (2 * total);
      var m := (200 * acquired + total) % (2 * total);
      assert 200 * acquired + total == q * (2 * total) + m && 0 <= m < 2 * total;
      assert q * (2 * total) == 2 * q * total;
      if acquired <= total then DivBelow(200 * acquired + total, 2 * total, 101); q else q
  }

  /** Division of a natural below `k * d` by `d` stays below `k`. */
  lemma DivBelow(n: nat, d: nat, k: nat)
    requires d > 0 && n < k * d
    ensures 0 <= n / d < k
  {
    var q := n / d;
    var m := n % d;
    assert n == d * q + m && 0 <= m < d;
    assert d * (k - q) > 0;
  }

  lemma PercentExamples()
    ensures Percent(3, 4) == 75
    ensures Percent(0, 0) == 0
    ensures Percent(1, 8) == 13
  {
  }

  // ---- updateCharacterFilter / updateMainCharacterFilter ----

  const OldCaptains := ["라파엘", "릴", "마리아", "호드람"]
  const NewCaptains := ["교타로", "웃딘", "티알"]

  /** The group a main character belongs to, "" for an unknown name. */
  function GroupOf(captain: string): string {
    if captain in OldCaptains then OldGroup
    else if captain in NewCaptains then NewGroup
    else ""
  }

  /** The main characters of a group, none for an unknown group. */
  function CaptainsOf(group: string): seq<string> {
    if group == OldGroup then OldCaptains
    else if group == NewGroup then NewCaptains
    else []
  }

  /** The two tables agree: every captain of a group belongs to that group,
      and every known captain is listed under its group. */
  lemma GroupsAgree(group: string, captain: string)
    ensures captain in CaptainsOf(group) ==> GroupOf(captain) == group
    ensures GroupOf(captain) != "" ==> captain in CaptainsOf(GroupOf(captain))
  {
  }

  /** `updateCharacterFilter`: the new character-group selection, given the
      main-character selection. */
  function CharacterSelectionFor(mainSel: string, charSel: string): (r: string)
    ensures mainSel == "" ==> r == ""
    ensures GroupOf(mainSel) != "" ==> mainSel in CaptainsOf(r) && ConsistentSelections(r, mainSel)
    ensures mainSel != "" && GroupOf(mainSel) == "" ==> r == charSel
  {
    if mainSel == "" then ""
    else if GroupOf(mainSel) != "" then GroupsAgree(GroupOf(mainSel), mainSel); GroupOf(mainSel)
    else charSel
  }

  /** `updateMainCharacterFilter`: the new main-character selection, given the
      character-group selection; a captain outside the group is replaced by
      the group's first captain. */
  function MainSelectionFor(charSel: string, mainSel: string): (r: string)
    ensures charSel == "" ==> r == ""
    ensures |CaptainsOf(charSel)| > 0 ==> r in CaptainsOf(charSel)
    ensures mainSel in CaptainsOf(charSel) ==> r == mainSel
    ensures charSel != "" && CaptainsOf(charSel) == [] ==> r == mainSel
  {
    if charSel == "" then ""
    else
      var captains := CaptainsOf(charSel);
      if |captains| > 0 && (mainSel == "" || mainSel !in captains) then captains[0] else mainSel
  }

  /** Which drop-down the `change` event came from. */
  datatype ChangedFilter = CharacterChanged | MainCharacterChanged | OtherFilterChanged

  /** `handleFilterChange` as written: whichever filter changed, it first fits
      the main character to the group, then the group to the main character.
      Result: (group, main character). */
  function SyncAsWritten(charSel: string, mainSel: string): (string, string) {
    var main := MainSelectionFor(charSel, mainSel);
    (CharacterSelectionFor(main, charSel), main)
  }

  /** As written, choosing a captain of the other group is undone: with the
      old group selected, picking 교타로 leaves the old group and 라파엘. */
  lemma SyncRevertsCaptainChoice()
    ensures SyncAsWritten(OldGroup, "교타로") == (OldGroup, "라파엘")
  {
    assert "교타로" !in OldCaptains;
  }

  /** The selections are consistent: both "all", or a known captain with its group. */
  predicate ConsistentSelections(charSel: string, mainSel: string) {
    (charSel == "" && mainSel == "") || (mainSel != "" && GroupOf(mainSel) == charSel)
  }

  /** `handleFilterChange` as its comments intend: the drop-down that changed
      keeps the user's choice and the other one follows it. */
  function SyncSelections(changed: ChangedFilter, charSel: string, mainSel: string): (r: (string, string))
    ensures changed == MainCharacterChanged && GroupOf(mainSel) != "" ==> r == (GroupOf(mainSel), mainSel)
    ensures changed == CharacterChanged && |CaptainsOf(charSel)| > 0 ==>
      r.0 == charSel && r.1 in CaptainsOf(charSel)
    ensures changed == OtherFilterChanged ==> r == (charSel, mainSel)
  {
    match changed
    case CharacterChanged => (charSel, MainSelectionFor(charSel, mainSel))
    case MainCharacterChanged => (CharacterSelectionFor(mainSel, charSel), mainSel)
    case OtherFilterChanged => (charSel, mainSel)
  }

  /** From drop-down values, the corrected coupling always leaves consistent
      selections after a character or main-character change, and keeps the
      value the user just chose. */
  lemma SyncSelectionsConsistent(changed: ChangedFilter, charSel: string, mainSel: string)
    requires changed != OtherFilterChanged
    requires charSel == "" || charSel == OldGroup || charSel == NewGroup
    requires mainSel == "" || GroupOf(mainSel) != ""
    ensures ConsistentSelections(SyncSelections(changed, charSel, mainSel).0, SyncSelections(changed, charSel, mainSel).1)
    ensures changed == CharacterChanged ==> SyncSelections(changed, charSel, mainSel).0 == charSel
    ensures changed == MainCharacterChanged ==> SyncSelections(changed, charSel, mainSel).1 == mainSel
  {
    var r := SyncSelections(changed, charSel, mainSel);
    if changed == CharacterChanged && charSel != "" {
      GroupsAgree(charSel, r.1);
    }
  }

  // ---- performCrewSearch ----

  datatype Route = Route(character: string, condition: string)

  /** A companion and the recruitment routes per main character. */
  datatype Crew = Crew(name: string, routes: seq<Route>)

  /** The per-companion test of `performCrewSearch`. */
  predicate CrewMatches(crew: Crew, term: string, character: string, lower: CaseMap) {
    && (term == "" || Contains(Lower(crew.name, lower), term))
    && (character == "" || exists i :: 0 <= i < |crew.routes| && crew.routes[i].character == character)
  }
}
