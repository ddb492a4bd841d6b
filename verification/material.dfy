/** The material parser's database step: the grouped heading tuples are
    sorted, and every tuple with a title becomes one node of the material
    tree, linked to the node of its parent tuple and numbered within that
    parent. */
module MaterialTree {
  import opened Strings
  import opened Outline

  // ---------------------------------------------------------------------
  // Python's ordering of strings and of tuples of strings
  // ---------------------------------------------------------------------

  /** Lexicographic order on sequences over an element order, the way
      Python compares `str` values and tuples: the first difference
      decides, and a proper prefix comes first. */
  predicate Lex<T(==)>(a: seq<T>, b: seq<T>, less: (T, T) -> bool)
    decreases |a|
  {
    if a == [] then b != []
    else b != [] && (less(a[0], b[0]) || (a[0] == b[0] && Lex(a[1..], b[1..], less)))
  }

  ghost predicate StrictOrder<T(!new)>(less: (T, T) -> bool)
  {
    (forall x :: !less(x, x)) &&
    (forall x, y, z :: less(x, y) && less(y, z) ==> less(x, z)) &&
    (forall x, y :: x == y || less(x, y) || less(y, x))
  }

  lemma {:induction false} LexIrreflexive<T>(a: seq<T>, less: (T, T) -> bool)
    requires forall x :: !less(x, x)
    ensures !Lex(a, a, less)
    decreases |a|
  {
    if a != [] {
      LexIrreflexive(a[1..], less);
    }
  }

  lemma {:induction false} LexTransitive<T(!new)>(a: seq<T>, b: seq<T>, c: seq<T>, less: (T, T) -> bool)
    requires StrictOrder(less)
    requires Lex(a, b, less) && Lex(b, c, less)
    ensures Lex(a, c, less)
    decreases |a|
  {
    if a != [] && a[0] == b[0] && b[0] == c[0] {
      LexTransitive(a[1..], b[1..], c[1..], less);
    }
  }

  lemma {:induction false} LexTotal<T(!new)>(a: seq<T>, b: seq<T>, less: (T, T) -> bool)
    requires StrictOrder(less)
    ensures a == b || Lex(a, b, less) || Lex(b, a, less)
    decreases |a|
  {
    if a != [] && b != [] && a[0] == b[0] {
      LexTotal(a[1..], b[1..], less);
      if a[1..] == b[1..] {
        assert a == [a[0]] + a[1..] && b == [b[0]] + b[1..];
      }
    }
  }

  /** A strict total order on elements gives one on sequences. */
  lemma LexStrictOrder<T(!new)>(less: (T, T) -> bool)
    requires StrictOrder(less)
    ensures forall a: seq<T> :: !Lex(a, a, less)
    ensures forall a: seq<T>, b, c :: Lex(a, b, less) && Lex(b, c, less) ==> Lex(a, c, less)
    ensures forall a: seq<T>, b :: a == b || Lex(a, b, less) || Lex(b, a, less)
  {
    forall a: seq<T> ensures !Lex(a, a, less) {
      LexIrreflexive(a, less);
    }
    forall a: seq<T>, b, c | Lex(a, b, less) && Lex(b, c, less) ensures Lex(a, c, less) {
      LexTransitive(a, b, c, less);
    }
    forall a: seq<T>, b ensures a == b || Lex(a, b, less) || Lex(b, a, less) {
      LexTotal(a, b, less);
    }
  }

  function CharLess(x: char, y: char): bool
  {
    x < y
  }

  /** `a < b` on Python strings: by code point. */
  predicate StrLess(a: string, b: string)
  {
    Lex(a, b, CharLess)
  }

  /** `a < b` on tuples of strings. */
  predicate KeyLess(a: Key, b: Key)
  {
    Lex(a, b, StrLess)
  }

  lemma StrOrder()
    ensures StrictOrder(StrLess)
  {
    LexStrictOrder(CharLess);
  }

  /** Tuples of strings are totally ordered. */
  lemma KeyOrder()
    ensures StrictOrder(KeyLess)
  {
    StrOrder();
    LexStrictOrder(StrLess);
  }

  /** For keys of one length, a key that agrees with another on its first
      `len` slots and is empty in every later slot sorts first: the key of
      a heading comes before the keys of everything under it. */
  lemma {:induction false} PaddedKeySortsFirst(p: Key, c: Key, len: nat)
    requires |p| == |c| && len <= |p| && p[..len] == c[..len]
    requires forall j :: len <= j < |p| ==> p[j] == []
    requires p != c
    ensures KeyLess(p, c)
    decreases |p|
  {
    assert p != [];
    if len > 0 {
      assert p[0] == c[0];
      assert p[1..][..len - 1] == p[..len][1..];
      assert c[1..][..len - 1] == c[..len][1..];
      PaddedKeySortsFirst(p[1..], c[1..], len - 1);
    } else if p[0] == c[0] {
      PaddedKeySortsFirst(p[1..], c[1..], 0);
    } else {
      assert p[0] == [] && c[0] != [];
      assert StrLess(p[0], c[0]);
    }
  }

  // ---------------------------------------------------------------------
  // Sorting the grouped items
  // ---------------------------------------------------------------------

  type Item = (Key, seq<string>)

  function Keys(s: seq<Item>): (r: seq<Key>)
    ensures |r| == |s| && forall i :: 0 <= i < |s| ==> r[i] == s[i].0
  {
    seq(|s|, i requires 0 <= i < |s| => s[i].0)
  }

  predicate SortedByKey(s: seq<Item>)
  {
    forall i, j :: 0 <= i < j < |s| ==> !KeyLess(s[j].0, s[i].0)
  }

  /** Places `x` after every item whose key is not larger. */
  function InsertByKey(t: seq<Item>, x: Item): (r: seq<Item>)
    ensures |r| == |t| + 1
    decreases |t|
  {
    if t == [] || !KeyLess(x.0, t[|t| - 1].0) then t + [x]
    else InsertByKey(t[..|t| - 1], x) + [t[|t| - 1]]
  }

  /** `sorted(items, key=lambda item: item[0])`, as an insertion sort. The
      keys of a dictionary are distinct, so any correct sort gives this
      order. */
  function SortItems(s: seq<Item>): (r: seq<Item>)
    ensures |r| == |s|
    decreases |s|
  {
    if s == [] then [] else InsertByKey(SortItems(s[..|s| - 1]), s[|s| - 1])
  }

  lemma {:induction false} InsertByKeyPermutes(t: seq<Item>, x: Item)
    ensures multiset(InsertByKey(t, x)) == multiset(t) + multiset{x}
    ensures forall k :: k in Keys(InsertByKey(t, x)) <==> k in Keys(t) || k == x.0
    decreases |t|
  {
    if !(t == [] || !KeyLess(x.0, t[|t| - 1].0)) {
      var init := t[..|t| - 1];
      InsertByKeyPermutes(init, x);
      assert t == init + [t[|t| - 1]];
      assert Keys(InsertByKey(t, x)) == Keys(InsertByKey(init, x)) + [t[|t| - 1].0];
      assert Keys(t) == Keys(init) + [t[|t| - 1].0];
    } else {
      assert Keys(InsertByKey(t, x)) == Keys(t) + [x.0];
    }
  }

  lemma {:induction false} InsertByKeyBelow(t: seq<Item>, x: Item, b: Key)
    requires forall i :: 0 <= i < |t| ==> !KeyLess(b, t[i].0)
    requires !KeyLess(b, x.0)
    ensures forall i :: 0 <= i < |t| + 1 ==> !KeyLess(b, InsertByKey(t, x)[i].0)
    decreases |t|
  {
    if !(t == [] || !KeyLess(x.0, t[|t| - 1].0)) {
      InsertByKeyBelow(t[..|t| - 1], x, b);
    }
  }

  lemma {:induction false} InsertByKeySorted(t: seq<Item>, x: Item)
    requires SortedByKey(t)
    ensures SortedByKey(InsertByKey(t, x))
    decreases |t|
  {
    KeyOrder();
    if t != [] {
      var last := t[|t| - 1];
      if KeyLess(x.0, last.0) {
        var init := t[..|t| - 1];
        InsertByKeySorted(init, x);
        InsertByKeyBelow(init, x, last.0);
      } else {
        forall i | 0 <= i < |t| ensures !KeyLess(x.0, t[i].0) {
          if i < |t| - 1 {
            assert !KeyLess(last.0, t[i].0);
          }
        }
      }
    }
  }

  /** The sort puts the items in ascending key order and only reorders
      them. */
  lemma {:induction false} SortItemsCorrect(s: seq<Item>)
    ensures SortedByKey(SortItems(s))
    ensures multiset(SortItems(s)) == multiset(s)
    ensures forall k :: k in Keys(SortItems(s)) <==> k in Keys(s)
    decreases |s|
  {
    if s != [] {
      var init := s[..|s| - 1];
      SortItemsCorrect(init);
      InsertByKeySorted(SortItems(init), s[|s| - 1]);
      InsertByKeyPermutes(SortItems(init), s[|s| - 1]);
      assert s == init + [s[|s| - 1]];
      assert Keys(s) == Keys(init) + [s[|s| - 1].0];
    }
  }

  /** With distinct keys the sorted keys stay distinct and strictly
      increase. */
  lemma {:induction false} SortItemsStrict(s: seq<Item>)
    requires NoDuplicates(Keys(s))
    ensures NoDuplicates(Keys(SortItems(s)))
    ensures forall i, j :: 0 <= i < j < |s| ==> KeyLess(SortItems(s)[i].0, SortItems(s)[j].0)
    decreases |s|
  {
    if s != [] {
      var init := s[..|s| - 1];
      var x := s[|s| - 1];
      assert Keys(s) == Keys(init) + [x.0];
      SortItemsStrict(init);
      SortItemsCorrect(init);
      assert x.0 !in Keys(init);
      InsertKeepsDistinct(SortItems(init), x);
    }
    SortItemsCorrect(s);
    KeyOrder();
  }

  lemma {:induction false} InsertKeepsDistinct(t: seq<Item>, x: Item)
    requires NoDuplicates(Keys(t)) && x.0 !in Keys(t)
    ensures NoDuplicates(Keys(InsertByKey(t, x)))
    decreases |t|
  {
    if t == [] || !KeyLess(x.0, t[|t| - 1].0) {
      assert Keys(InsertByKey(t, x)) == Keys(t) + [x.0];
      NoDuplicatesAppend(Keys(t), x.0);
    } else {
      var init := t[..|t| - 1];
      var last := t[|t| - 1];
      assert Keys(t) == Keys(init) + [last.0];
      assert NoDuplicates(Keys(init)) by {
        assert forall i :: 0 <= i < |init| ==> Keys(init)[i] == Keys(t)[i];
      }
      InsertKeepsDistinct(init, x);
      InsertByKeyPermutes(init, x);
      assert last.0 !in Keys(init);
      assert Keys(InsertByKey(t, x)) == Keys(InsertByKey(init, x)) + [last.0];
      NoDuplicatesAppend(Keys(InsertByKey(init, x)), last.0);
    }
  }

  lemma NoDuplicatesAppend<T>(a: seq<T>, y: T)
    requires NoDuplicates(a) && y !in a
    ensures NoDuplicates(a + [y])
  {
  }

  /** In the sorted items a heading's tuple comes before the tuple of
      anything filed under it. */
  lemma ParentItemFirst(s: seq<Item>, i: nat, j: nat, len: nat)
    requires NoDuplicates(Keys(s))
    requires i < |SortItems(s)| && j < |SortItems(s)|
    requires var p, c := SortItems(s)[i].0, SortItems(s)[j].0;
      |p| == |c| && len <= |p| && p[..len] == c[..len] && (forall k :: len <= k < |p| ==> p[k] == [])
    requires i != j
    ensures i < j
  {
    SortItemsStrict(s);
    PaddedItemFirst(SortItems(s), i, j, len);
  }

  lemma PaddedItemFirst(r: seq<Item>, i: nat, j: nat, len: nat)
    requires forall a, b :: 0 <= a < b < |r| ==> KeyLess(r[a].0, r[b].0)
    requires i < |r| && j < |r| && i != j
    requires var p, c := r[i].0, r[j].0;
      |p| == |c| && len <= |p| && p[..len] == c[..len] && (forall k :: len <= k < |p| ==> p[k] == [])
    ensures i < j
  {
    if j < i {
      KeyOrder();
      assert KeyLess(r[j].0, r[i].0);
      PaddedKeySortsFirst(r[i].0, r[j].0, len);
      assert false;
    }
  }

  // ---------------------------------------------------------------------
  // Inserting the nodes
  // ---------------------------------------------------------------------

  /** `title` and `title1..title8` are VARCHAR(255). */
  const TitleWidth: nat := 255
  const TitleColumns: nat := 8

  /** One inserted `material_contents` row; `id` is the row id the
      database hands back. */
  datatype MaterialRow = MaterialRow(id: nat, parent: Option<nat>, level: nat, sequence: nat,
                                     title: string, titles: seq<Option<string>>, content: string)

  /** The level of a tuple: one past the index of its last non-empty
      heading, 0 when every heading is empty. */
  function TitleLevel(key: Key): (level: nat)
    ensures level <= |key|
    ensures level > 0 ==> key[level - 1] != []
    ensures forall i :: level <= i < |key| ==> key[i] == []
    ensures level == 0 <==> AllEmpty(key)
    decreases |key|
  {
    if key == [] then 0
    else if key[|key| - 1] != [] then |key|
    else TitleLevel(key[..|key| - 1])
  }

  /** The level/title loop: the last non-empty heading wins. */
  method LevelAndTitle(key: Key) returns (level: nat, title: string)
    ensures level == TitleLevel(key)
    ensures title == (if level == 0 then [] else key[level - 1])
  {
    level, title := 0, [];
    for i := 0 to |key|
      invariant level == TitleLevel(key[..i])
      invariant title == (if level == 0 then [] else key[level - 1])
    {
      assert key[..i + 1][..i] == key[..i];
      if key[i] != [] {
        level, title := i + 1, key[i];
      }
    }
    assert key[..|key|] == key;
  }

  /** `title1..title8`: the first `min(level, 8)` headings of the tuple,
      each cut to 255 characters; the other fields are `None`. */
  function TitleFields(key: Key, level: nat): (fields: seq<Option<string>>)
    requires level <= |key|
    ensures |fields| == TitleColumns
  {
    seq(TitleColumns, i requires 0 <= i < TitleColumns =>
      if i < level then Some(Take(key[i], TitleWidth)) else None)
  }

  /** Field `i` is set exactly when `i < level`, and then holds at most 255
      leading characters of heading `i`. */
  lemma TitleFieldsFacts(key: Key, level: nat)
    requires level <= |key|
    ensures var fields := TitleFields(key, level);
      forall i :: 0 <= i < TitleColumns ==>
        (i < level <==> fields[i].Some?) &&
        (i < level ==> (|fields[i].value| <= TitleWidth && fields[i].value == key[i][..|fields[i].value|]))
  {
  }

  /** The title-field loop over the first `level` headings. */
  method BuildTitleFields(key: Key, level: nat) returns (fields: seq<Option<string>>)
    requires level <= |key|
    ensures fields == TitleFields(key, level)
  {
    fields := seq(TitleColumns, _ => None);
    for i := 0 to level
      invariant |fields| == TitleColumns
      invariant forall j :: 0 <= j < TitleColumns ==>
        fields[j] == if j < i then Some(Take(key[j], TitleWidth)) else None
    {
      if i < TitleColumns {
        fields := fields[i := Some(Take(key[i], TitleWidth))];
      }
    }
    assert forall j :: 0 <= j < TitleColumns ==> fields[j] == TitleFields(key, level)[j];
  }

  /** The database state of the insertion loop: the ids recorded for
      heading prefixes, the per-parent sequence counters (`None` stands for
      `'root'`), the rows inserted so far and the id the next insert gets. */
  datatype TreeState = TreeState(parentIds: map<Key, nat>, counters: map<Option<nat>, nat>,
                                 rows: seq<MaterialRow>, nextId: nat)

  function CounterOf(counters: map<Option<nat>, nat>, p: Option<nat>): nat
  {
    if p in counters then counters[p] else 0
  }

  function Lookup(ids: map<Key, nat>, t: Key): Option<nat>
  {
    if t in ids then Some(ids[t]) else None
  }

  /** One item of the loop: an untitled tuple is skipped; otherwise a row
      goes in under the id recorded for the tuple's first `level - 1`
      headings, numbered one past that parent's counter, and the new id is
      recorded for the tuple's first `level` headings. */
  function InsertNode(st: TreeState, item: Item): TreeState
  {
    var key := item.0;
    var level := TitleLevel(key);
    if level == 0 then st
    else
      var parent := Lookup(st.parentIds, key[..level - 1]);
      var sequence := CounterOf(st.counters, parent) + 1;
      var row := MaterialRow(st.nextId, parent, level, sequence, Take(key[level - 1], TitleWidth),
                             TitleFields(key, level), Strip(Join("\n", item.1)));
      TreeState(st.parentIds[key[..level] := st.nextId], st.counters[parent := sequence],
                st.rows + [row], st.nextId + 1)
  }

  function InsertAll(items: seq<Item>, firstId: nat): TreeState
    decreases |items|
  {
    if items == [] then TreeState(map[], map[], [], firstId)
    else InsertNode(InsertAll(items[..|items| - 1], firstId), items[|items| - 1])
  }

  /** The body of the insertion loop on the local dictionaries. */
  method InsertOne(parentIds: map<Key, nat>, counters: map<Option<nat>, nat>, rows: seq<MaterialRow>,
                   nextId: nat, item: Item)
    returns (parentIds': map<Key, nat>, counters': map<Option<nat>, nat>, rows': seq<MaterialRow>, nextId': nat)
    ensures TreeState(parentIds', counters', rows', nextId') ==
      InsertNode(TreeState(parentIds, counters, rows, nextId), item)
  {
    parentIds', counters', rows', nextId' := parentIds, counters, rows, nextId;
    var (key, texts) := item;
    var level, title := LevelAndTitle(key);
    if title == [] {
      assert TitleLevel(item.0) == 0;
      assert InsertNode(TreeState(parentIds, counters, rows, nextId), item) == TreeState(parentIds, counters, rows, nextId);
      return;
    }
    var parentKey := key[..level - 1];
    var parent := if parentKey in parentIds then Some(parentIds[parentKey]) else None;
    var sequence := (if parent in counters then counters[parent] else 0) + 1;
    counters' := counters[parent := sequence];
    var fields := BuildTitleFields(key, level);
    var content := Strip(Join("\n", texts));
    var newId := nextId;
    rows' := rows + [MaterialRow(newId, parent, level, sequence, Take(title, TitleWidth), fields, content)];
    nextId' := nextId + 1;
    parentIds' := parentIds[key[..level] := newId];
    InsertNodeOf(TreeState(parentIds, counters, rows, nextId), item, level, parent, sequence);
  }

  /** The state after a titled item, spelled out field by field. */
  lemma InsertNodeOf(st: TreeState, item: Item, level: nat, parent: Option<nat>, sequence: nat)
    requires level == TitleLevel(item.0) && level > 0
    requires parent == Lookup(st.parentIds, item.0[..level - 1])
    requires sequence == CounterOf(st.counters, parent) + 1
    ensures InsertNode(st, item) ==
      TreeState(st.parentIds[item.0[..level] := st.nextId], st.counters[parent := sequence],
                st.rows + [MaterialRow(st.nextId, parent, level, sequence, Take(item.0[level - 1], TitleWidth),
                                       TitleFields(item.0, level), Strip(Join("\n", item.1)))],
                st.nextId + 1)
  {
  }

  /** The insertion loop over the sorted items; `rows_inserted` counts the
      inserts. */
  method InsertNodes(items: seq<Item>, firstId: nat) returns (rows: seq<MaterialRow>, rowsInserted: nat)
    ensures rows == InsertAll(items, firstId).rows && rowsInserted == |rows|
  {
    var parentIds: map<Key, nat> := map[];
    var counters: map<Option<nat>, nat> := map[];
    var nextId := firstId;
    rows, rowsInserted := [], 0;
    for i := 0 to |items|
      invariant TreeState(parentIds, counters, rows, nextId) == InsertAll(items[..i], firstId)
      invariant rowsInserted == |rows|
    {
      assert items[..i + 1][..i] == items[..i];
      var before := |rows|;
      parentIds, counters, rows, nextId := InsertOne(parentIds, counters, rows, nextId, items[i]);
      if |rows| != before {
        rowsInserted := rowsInserted + 1;
      }
    }
    assert items[..|items|] == items;
  }

  // ---------------------------------------------------------------------
  // What the insertion loop guarantees
  // ---------------------------------------------------------------------

  /** The number of items whose tuple has a title. */
  function TitledCount(items: seq<Item>): nat
    decreases |items|
  {
    if items == [] then 0
    else TitledCount(items[..|items| - 1]) + (if TitleLevel(items[|items| - 1].0) > 0 then 1 else 0)
  }

  ghost predicate IdsConsistent(st: TreeState, firstId: nat)
  {
    st.nextId == firstId + |st.rows| &&
    (forall i :: 0 <= i < |st.rows| ==> st.rows[i].id == firstId + i) &&
    (forall i :: 0 <= i < |st.rows| && st.rows[i].parent.Some? ==>
       firstId <= st.rows[i].parent.value < st.rows[i].id) &&
    (forall t :: t in st.parentIds ==> firstId <= st.parentIds[t] < st.nextId)
  }

  lemma InsertNodeIds(st: TreeState, item: Item, firstId: nat)
    requires IdsConsistent(st, firstId)
    ensures IdsConsistent(InsertNode(st, item), firstId)
    ensures |InsertNode(st, item).rows| == |st.rows| + (if TitleLevel(item.0) > 0 then 1 else 0)
  {
    var level := TitleLevel(item.0);
    if level > 0 {
      var parent := Lookup(st.parentIds, item.0[..level - 1]);
      var sequence := CounterOf(st.counters, parent) + 1;
      InsertNodeOf(st, item, level, parent, sequence);
      var st' := InsertNode(st, item);
      IdsStep(st, st', item.0[..level], st'.rows[|st.rows|], firstId);
    }
  }

  /** Appending a row with the next id, under a parent recorded earlier,
      keeps the ids consistent. */
  lemma IdsStep(st: TreeState, st': TreeState, path: Key, row: MaterialRow, firstId: nat)
    requires IdsConsistent(st, firstId)
    requires row.id == st.nextId && (row.parent.Some? ==> row.parent.value in st.parentIds.Values)
    requires st'.parentIds == st.parentIds[path := st.nextId] && st'.rows == st.rows + [row]
    requires st'.nextId == st.nextId + 1
    ensures IdsConsistent(st', firstId)
  {
  }

  /** Rows get consecutive ids from the first one, one per titled item
      (`rows_inserted`), and a row's parent is always a row inserted
      before it. */
  lemma {:induction false} InsertAllIds(items: seq<Item>, firstId: nat)
    ensures IdsConsistent(InsertAll(items, firstId), firstId)
    ensures |InsertAll(items, firstId).rows| == TitledCount(items)
    decreases |items|
  {
    if items != [] {
      InsertAllIds(items[..|items| - 1], firstId);
      InsertNodeIds(InsertAll(items[..|items| - 1], firstId), items[|items| - 1], firstId);
    }
  }

  /** How many rows have parent `p`. */
  function ChildCount(rows: seq<MaterialRow>, p: Option<nat>): nat
    decreases |rows|
  {
    if rows == [] then 0
    else ChildCount(rows[..|rows| - 1], p) + (if rows[|rows| - 1].parent == p then 1 else 0)
  }

  ghost predicate CountersMatch(st: TreeState)
  {
    (forall p :: CounterOf(st.counters, p) == ChildCount(st.rows, p)) &&
    (forall i :: 0 <= i < |st.rows| ==> st.rows[i].sequence == ChildCount(st.rows[..i + 1], st.rows[i].parent))
  }

  lemma InsertNodeCounters(st: TreeState, item: Item)
    requires CountersMatch(st)
    ensures CountersMatch(InsertNode(st, item))
  {
    var level := TitleLevel(item.0);
    if level > 0 {
      var parent := Lookup(st.parentIds, item.0[..level - 1]);
      var sequence := CounterOf(st.counters, parent) + 1;
      InsertNodeOf(st, item, level, parent, sequence);
      var st' := InsertNode(st, item);
      CountersStep(st, st', st'.rows[|st.rows|]);
    }
  }

  /** Appending a row numbered one past its parent's counter, and bumping
      that counter, keeps the counters in step with the rows. */
  lemma CountersStep(st: TreeState, st': TreeState, row: MaterialRow)
    requires CountersMatch(st)
    requires row.sequence == CounterOf(st.counters, row.parent) + 1
    requires st'.counters == st.counters[row.parent := row.sequence] && st'.rows == st.rows + [row]
    ensures CountersMatch(st')
  {
    TotalsStep(st.counters, st'.counters, st.rows, row);
    SequencesStep(st.rows, row);
  }

  lemma TotalsStep(counters: map<Option<nat>, nat>, counters': map<Option<nat>, nat>, rows: seq<MaterialRow>, row: MaterialRow)
    requires forall p :: CounterOf(counters, p) == ChildCount(rows, p)
    requires counters' == counters[row.parent := CounterOf(counters, row.parent) + 1]
    ensures forall p :: CounterOf(counters', p) == ChildCount(rows + [row], p)
  {
    assert (rows + [row])[..|rows|] == rows;
  }

  lemma SequencesStep(rows: seq<MaterialRow>, row: MaterialRow)
    requires forall i :: 0 <= i < |rows| ==> rows[i].sequence == ChildCount(rows[..i + 1], rows[i].parent)
    requires row.sequence == ChildCount(rows + [row], row.parent)
    ensures forall i :: 0 <= i < |rows| + 1 ==> (rows + [row])[i].sequence == ChildCount((rows + [row])[..i + 1], (rows + [row])[i].parent)
  {
    var r := rows + [row];
    forall i | 0 <= i < |r| ensures r[i].sequence == ChildCount(r[..i + 1], r[i].parent) {
      if i < |rows| {
        assert r[..i + 1] == rows[..i + 1];
      } else {
        assert r[..i + 1] == r;
      }
    }
  }

  /** Sequence numbers run 1, 2, 3, ... among the children of each parent
      (the roots counting as children of `'root'`): a row's number is the
      count of rows with its parent up to and including it, and each
      counter holds the number of children inserted so far. */
  lemma {:induction false} InsertAllSequences(items: seq<Item>, firstId: nat)
    ensures CountersMatch(InsertAll(items, firstId))
    decreases |items|
  {
    if items != [] {
      InsertAllSequences(items[..|items| - 1], firstId);
      InsertNodeCounters(InsertAll(items[..|items| - 1], firstId), items[|items| - 1]);
    }
  }

  // ---------------------------------------------------------------------
  // Parents in the sorted groups
  // ---------------------------------------------------------------------

  /** The heading path of a node: its tuple up to its title. */
  function NodePath(key: Key): Key
  {
    key[..TitleLevel(key)]
  }

  /** The path the insertion loop looks its parent up under: the node's
      path without its title. */
  function ParentPath(key: Key): Key
  {
    if TitleLevel(key) == 0 then [] else key[..TitleLevel(key) - 1]
  }

  /** Tuples of one length with the same heading path are the same tuple. */
  lemma NodePathDetermines(a: Key, b: Key)
    requires |a| == |b| && NodePath(a) == NodePath(b)
    ensures a == b
  {
    forall i | 0 <= i < |a| ensures a[i] == b[i] {
      if i < TitleLevel(a) {
        assert a[i] == NodePath(a)[i] && b[i] == NodePath(b)[i];
      }
    }
  }

  lemma KeyLessIrreflexive(a: Key)
    ensures !KeyLess(a, a)
  {
    StrOrder();
    LexIrreflexive(a, StrLess);
  }

  lemma KeyLessAsymmetric(a: Key, b: Key)
    requires KeyLess(a, b)
    ensures !KeyLess(b, a)
  {
    if KeyLess(b, a) {
      StrOrder();
      LexTransitive(a, b, a, StrLess);
      LexIrreflexive(a, StrLess);
    }
  }

  /** The shape of the parser's sorted groups: every tuple has a title, all
      tuples have one length, and they strictly increase. */
  ghost predicate WellSorted(items: seq<Item>)
  {
    AllTitled(items) &&
    (forall i, j :: 0 <= i < |items| && 0 <= j < |items| ==> |items[i].0| == |items[j].0|) &&
    (forall i, j :: 0 <= i < j < |items| ==> KeyLess(items[i].0, items[j].0))
  }

  ghost predicate AllTitled(items: seq<Item>)
  {
    forall i :: 0 <= i < |items| ==> TitleLevel(items[i].0) > 0
  }

  /** The heading path of every item, in order. */
  ghost function NodePaths(items: seq<Item>): (paths: seq<Key>)
    ensures |paths| == |items|
    ensures forall i :: 0 <= i < |items| ==> paths[i] == NodePath(items[i].0)
  {
    seq(|items|, i requires 0 <= i < |items| => NodePath(items[i].0))
  }

  /** The path every item's parent is looked up under, in order. */
  ghost function ParentPaths(items: seq<Item>): (parents: seq<Key>)
    ensures |parents| == |items|
    ensures forall i :: 0 <= i < |items| ==> parents[i] == ParentPath(items[i].0)
  {
    seq(|items|, i requires 0 <= i < |items| => ParentPath(items[i].0))
  }

  ghost predicate Distinct(paths: seq<Key>)
  {
    forall i, j :: 0 <= i < j < |paths| ==> paths[i] != paths[j]
  }

  /** Distinct tuples of one length have distinct heading paths. */
  lemma WellSortedDistinct(items: seq<Item>)
    requires WellSorted(items)
    ensures Distinct(NodePaths(items))
  {
    var paths := NodePaths(items);
    forall i, j | 0 <= i < j < |items| ensures paths[i] != paths[j] {
      if NodePath(items[i].0) == NodePath(items[j].0) {
        NodePathDetermines(items[i].0, items[j].0);
        KeyLessIrreflexive(items[i].0);
      }
    }
  }

  /** After the first `k` paths, each of them maps to the id of its row,
      and nothing else is recorded. */
  ghost predicate PathsRecorded(ids: map<Key, nat>, paths: seq<Key>, k: nat, firstId: nat)
    requires k <= |paths|
  {
    (forall j :: 0 <= j < k ==> paths[j] in ids && ids[paths[j]] == firstId + j) &&
    (forall t :: t in ids ==> exists j :: 0 <= j < k && paths[j] == t)
  }

  /** What row `i`'s parent says about the paths before it: the row of an
      earlier node whose path is `parent`, or none when there is no such
      node. */
  ghost predicate ParentFound(rows: seq<MaterialRow>, paths: seq<Key>, parent: Key, i: nat, firstId: nat)
    requires i < |rows| && i <= |paths|
  {
    (rows[i].parent.Some? ==>
       (exists j :: 0 <= j < i && paths[j] == parent && rows[i].parent.value == firstId + j)) &&
    (rows[i].parent.None? ==> forall j :: 0 <= j < i ==> paths[j] != parent)
  }

  lemma InsertNodeShape(st: TreeState, item: Item)
    requires TitleLevel(item.0) > 0
    ensures var st' := InsertNode(st, item);
      st'.parentIds == st.parentIds[NodePath(item.0) := st.nextId] &&
      st'.nextId == st.nextId + 1 &&
      |st'.rows| == |st.rows| + 1 && st'.rows[..|st.rows|] == st.rows &&
      st'.rows[|st.rows|].parent == Lookup(st.parentIds, ParentPath(item.0))
  {
  }

  lemma RecordPath(ids: map<Key, nat>, paths: seq<Key>, k: nat, firstId: nat)
    requires k < |paths| && Distinct(paths) && PathsRecorded(ids, paths, k, firstId)
    ensures PathsRecorded(ids[paths[k] := firstId + k], paths, k + 1, firstId)
  {
    var ids' := ids[paths[k] := firstId + k];
    forall t | t in ids' ensures exists j :: 0 <= j < k + 1 && paths[j] == t {
      if t != paths[k] {
        var j :| 0 <= j < k && paths[j] == t;
      }
    }
  }

  lemma LookupPath(ids: map<Key, nat>, paths: seq<Key>, k: nat, firstId: nat, t: Key)
    requires k <= |paths| && PathsRecorded(ids, paths, k, firstId)
    ensures Lookup(ids, t).Some? ==>
      exists j :: 0 <= j < k && paths[j] == t && Lookup(ids, t).value == firstId + j
    ensures Lookup(ids, t).None? ==> forall j :: 0 <= j < k ==> paths[j] != t
  {
    if t in ids {
      var j :| 0 <= j < k && paths[j] == t;
      assert ids[t] == firstId + j;
    }
  }

  /** What the loop knows after the first `k` items. */
  ghost predicate PrefixInserted(st: TreeState, paths: seq<Key>, parents: seq<Key>, k: nat, firstId: nat)
    requires k <= |paths| && k <= |parents|
  {
    st.nextId == firstId + k && |st.rows| == k && PathsRecorded(st.parentIds, paths, k, firstId) &&
    ParentsFound(st.rows, paths, parents, k, firstId)
  }

  ghost predicate ParentsFound(rows: seq<MaterialRow>, paths: seq<Key>, parents: seq<Key>, k: nat, firstId: nat)
    requires k <= |rows| && k <= |paths| && k <= |parents|
  {
    forall i :: 0 <= i < k ==> ParentFound(rows, paths, parents[i], i, firstId)
  }

  lemma ParentFoundKept(rows0: seq<MaterialRow>, rows: seq<MaterialRow>, paths: seq<Key>, parent: Key, i: nat, firstId: nat)
    requires i < |rows0| <= |rows| && i <= |paths| && rows[..|rows0|] == rows0
    requires ParentFound(rows0, paths, parent, i, firstId)
    ensures ParentFound(rows, paths, parent, i, firstId)
  {
    assert rows[i] == rows[..|rows0|][i];
  }

  lemma InsertPathsStep(st0: TreeState, items: seq<Item>, k: nat, firstId: nat)
    requires Distinct(NodePaths(items)) && k < |items| && TitleLevel(items[k].0) > 0
    requires PrefixInserted(st0, NodePaths(items), ParentPaths(items), k, firstId)
    ensures PrefixInserted(InsertNode(st0, items[k]), NodePaths(items), ParentPaths(items), k + 1, firstId)
  {
    InsertNodeShape(st0, items[k]);
    PathsStepOf(st0, InsertNode(st0, items[k]), NodePaths(items), ParentPaths(items), k, firstId);
  }

  /** The step of the loop invariant, from the shape of the new state. */
  lemma PathsStepOf(st0: TreeState, st: TreeState, paths: seq<Key>, parents: seq<Key>, k: nat, firstId: nat)
    requires Distinct(paths) && k < |paths| && k < |parents|
    requires PrefixInserted(st0, paths, parents, k, firstId)
    requires st.parentIds == st0.parentIds[paths[k] := st0.nextId] && st.nextId == st0.nextId + 1
    requires |st.rows| == |st0.rows| + 1 && st.rows[..|st0.rows|] == st0.rows
    requires st.rows[|st0.rows|].parent == Lookup(st0.parentIds, parents[k])
    ensures PrefixInserted(st, paths, parents, k + 1, firstId)
  {
    RecordPath(st0.parentIds, paths, k, firstId);
    NewParentFound(st0.parentIds, st.rows, paths, parents[k], k, firstId);
    ParentsFoundStep(st0.rows, st.rows, paths, parents, k, firstId);
  }

  lemma NewParentFound(ids: map<Key, nat>, rows: seq<MaterialRow>, paths: seq<Key>, parent: Key, k: nat, firstId: nat)
    requires k < |paths| && k < |rows| && PathsRecorded(ids, paths, k, firstId)
    requires rows[k].parent == Lookup(ids, parent)
    ensures ParentFound(rows, paths, parent, k, firstId)
  {
    LookupPath(ids, paths, k, firstId, parent);
  }

  lemma ParentsFoundStep(rows0: seq<MaterialRow>, rows: seq<MaterialRow>, paths: seq<Key>, parents: seq<Key>,
                         k: nat, firstId: nat)
    requires k < |paths| && k < |parents| && |rows0| == k && |rows| == k + 1 && rows[..k] == rows0
    requires ParentsFound(rows0, paths, parents, k, firstId) && ParentFound(rows, paths, parents[k], k, firstId)
    ensures ParentsFound(rows, paths, parents, k + 1, firstId)
  {
    forall i | 0 <= i < k ensures ParentFound(rows, paths, parents[i], i, firstId) {
      ParentFoundKept(rows0, rows, paths, parents[i], i, firstId);
    }
  }

  lemma InsertAllLast(items: seq<Item>, k: nat, firstId: nat)
    requires 0 < k <= |items|
    ensures InsertAll(items[..k], firstId) == InsertNode(InsertAll(items[..k - 1], firstId), items[k - 1])
  {
    assert items[..k][..k - 1] == items[..k - 1];
  }

  lemma {:induction false} InsertAllPaths(items: seq<Item>, k: nat, firstId: nat)
    requires AllTitled(items) && Distinct(NodePaths(items)) && k <= |items|
    ensures PrefixInserted(InsertAll(items[..k], firstId), NodePaths(items), ParentPaths(items), k, firstId)
    decreases k
  {
    if k == 0 {
      assert items[..0] == [];
    } else {
      InsertAllPaths(items, k - 1, firstId);
      InsertAllLast(items, k, firstId);
      InsertPathsStep(InsertAll(items[..k - 1], firstId), items, k - 1, firstId);
    }
  }

  /** A tuple cannot have a later node as its parent: the parent's tuple
      sorts first. */
  lemma ParentComesFirst(items: seq<Item>, i: nat, j: nat)
    requires WellSorted(items) && i < |items| && j < |items|
    requires NodePath(items[j].0) == ParentPath(items[i].0)
    ensures j < i
  {
    var p, c := items[j].0, items[i].0;
    var len := TitleLevel(c) - 1;
    if j > i {
      assert TitleLevel(p) == len;
      assert p[..len] == c[..len];
      assert p[len] == [] && c[len] != [];
      PaddedKeySortsFirst(p, c, len);
      KeyLessAsymmetric(c, p);
    }
  }

  /** In the sorted groups a node's parent, if any, comes before it. */
  lemma ParentsEarlier(items: seq<Item>)
    requires WellSorted(items)
    ensures var paths, parents := NodePaths(items), ParentPaths(items);
      forall i, j :: 0 <= i < |items| && 0 <= j < |items| && paths[j] == parents[i] ==> j < i
  {
    forall i, j | 0 <= i < |items| && 0 <= j < |items| && NodePaths(items)[j] == ParentPaths(items)[i]
      ensures j < i
    {
      ParentComesFirst(items, i, j);
    }
  }

  /** One row's parent, against all the paths. */
  lemma RowParent(rows: seq<MaterialRow>, paths: seq<Key>, parents: seq<Key>, i: nat, firstId: nat)
    requires Distinct(paths) && i < |paths| && i < |parents| && i < |rows|
    requires forall j :: 0 <= j < |paths| && paths[j] == parents[i] ==> j < i
    requires ParentFound(rows, paths, parents[i], i, firstId)
    ensures forall j :: 0 <= j < |paths| && paths[j] == parents[i] ==> j < i && rows[i].parent == Some(firstId + j)
    ensures rows[i].parent.None? <==> forall j :: 0 <= j < |paths| ==> paths[j] != parents[i]
  {
    forall j | 0 <= j < |paths| && paths[j] == parents[i]
      ensures rows[i].parent == Some(firstId + j)
    {
      if rows[i].parent.Some? {
        var j' :| 0 <= j' < i && paths[j'] == parents[i] && rows[i].parent.value == firstId + j';
        assert j' == j;
      }
    }
  }

  /** In the sorted groups every node is linked to the node whose heading
      path is its own path without its title, which was inserted earlier;
      it is a root exactly when no such node exists (a heading whose
      level-above slot is empty is therefore stored as a root). */
  lemma TreeParents(items: seq<Item>, firstId: nat)
    requires WellSorted(items)
    ensures var rows := InsertAll(items, firstId).rows;
      |rows| == |items| &&
      forall i :: 0 <= i < |items| ==>
        (forall j :: 0 <= j < |items| && NodePath(items[j].0) == ParentPath(items[i].0) ==>
           j < i && rows[i].parent == Some(firstId + j)) &&
        (rows[i].parent.None? <==> forall j :: 0 <= j < |items| ==> NodePath(items[j].0) != ParentPath(items[i].0))
  {
    WellSortedDistinct(items);
    InsertAllPaths(items, |items|, firstId);
    assert items[..|items|] == items;
    TreeParentsOf(items, InsertAll(items, firstId).rows, firstId);
  }

  lemma TreeParentsOf(items: seq<Item>, rows: seq<MaterialRow>, firstId: nat)
    requires WellSorted(items) && Distinct(NodePaths(items)) && |rows| == |items|
    requires ParentsFound(rows, NodePaths(items), ParentPaths(items), |items|, firstId)
    ensures forall i :: 0 <= i < |items| ==>
        (forall j :: 0 <= j < |items| && NodePath(items[j].0) == ParentPath(items[i].0) ==>
           j < i && rows[i].parent == Some(firstId + j)) &&
        (rows[i].parent.None? <==> forall j :: 0 <= j < |items| ==> NodePath(items[j].0) != ParentPath(items[i].0))
  {
    ParentsEarlier(items);
    RowParents(rows, NodePaths(items), ParentPaths(items), firstId);
  }

  /** `RowParent` for every row at once. */
  lemma RowParents(rows: seq<MaterialRow>, paths: seq<Key>, parents: seq<Key>, firstId: nat)
    requires Distinct(paths) && |rows| == |paths| == |parents|
    requires forall i, j :: 0 <= i < |parents| && 0 <= j < |paths| && paths[j] == parents[i] ==> j < i
    requires ParentsFound(rows, paths, parents, |rows|, firstId)
    ensures forall i :: 0 <= i < |rows| ==>
      (forall j :: 0 <= j < |paths| && paths[j] == parents[i] ==> j < i && rows[i].parent == Some(firstId + j)) &&
      (rows[i].parent.None? <==> forall j :: 0 <= j < |paths| ==> paths[j] != parents[i])
  {
    forall i | 0 <= i < |rows|
      ensures (forall j :: 0 <= j < |paths| && paths[j] == parents[i] ==> j < i && rows[i].parent == Some(firstId + j)) &&
        (rows[i].parent.None? <==> forall j :: 0 <= j < |paths| ==> paths[j] != parents[i])
    {
      assert ParentFound(rows, paths, parents[i], i, firstId);
      RowParent(rows, paths, parents, i, firstId);
    }
  }

  // ---------------------------------------------------------------------
  // The whole parse
  // ---------------------------------------------------------------------

  /** The rows `parse_word_to_db` inserts for a document: none without a
      heading of level 1-9, otherwise one per sorted group. */
  function ParsedRows(paras: seq<Paragraph>, n: int, firstId: nat): seq<MaterialRow>
  {
    match LevelRange(paras)
    case None => []
    case Some((lo, _)) => InsertAll(SortItems(Items(Aggregate(paras, lo, n, true))), firstId).rows
  }

  lemma ParsedWithHeadings(paras: seq<Paragraph>, n: int, firstId: nat, lo: int, hi: int)
    requires LevelRange(paras) == Some((lo, hi))
    ensures IsHeading(lo)
    ensures ParsedRows(paras, n, firstId) == InsertAll(SortItems(Items(Aggregate(paras, lo, n, true))), firstId).rows
  {
  }

  /** Sorting items with distinct, titled keys of one length gives the
      shape the tree proof needs. */
  lemma SortedWellSorted(s: seq<Item>, len: nat)
    requires NoDuplicates(Keys(s))
    requires forall i :: 0 <= i < |s| ==> |s[i].0| == len && TitleLevel(s[i].0) > 0
    ensures WellSorted(SortItems(s))
  {
    SortItemsStrict(s);
    SortItemsCorrect(s);
    var r := SortItems(s);
    forall i | 0 <= i < |r| ensures |r[i].0| == len && TitleLevel(r[i].0) > 0 {
      assert Keys(r)[i] == r[i].0;
      assert r[i].0 in Keys(s);
    }
  }

  /** The parser's sorted groups have the shape the tree proof needs:
      every tuple is titled (untitled ones were skipped), all have the key
      length, and the sort leaves them strictly increasing. */
  lemma SortedGroupsWellSorted(paras: seq<Paragraph>, lo: int, n: int)
    requires IsHeading(lo)
    ensures var g := Aggregate(paras, lo, n, true);
      WellSorted(SortItems(Items(g))) && |SortItems(Items(g))| == |g.order|
  {
    var g := Aggregate(paras, lo, n, true);
    AggregateGroups(paras, lo, n, true);
    var s := Items(g);
    assert Keys(s) == g.order;
    forall i | 0 <= i < |s| ensures |s[i].0| == KeyLength(lo, n) && TitleLevel(s[i].0) > 0 {
      assert s[i].0 in g.content;
    }
    SortedWellSorted(s, KeyLength(lo, n));
  }

  /** The end-to-end tree of one document: one row per titled group, the
      ids consecutive from `firstId`, and each row's parent the row of the
      group whose heading path is the row's path without its title. */
  lemma ParsedTree(paras: seq<Paragraph>, n: int, firstId: nat, lo: int, hi: int)
    requires LevelRange(paras) == Some((lo, hi))
    ensures var items := SortItems(Items(Aggregate(paras, lo, n, true)));
      var rows := ParsedRows(paras, n, firstId);
      |rows| == |items| == |Aggregate(paras, lo, n, true).order| &&
      forall i :: 0 <= i < |items| ==>
        rows[i].id == firstId + i &&
        (forall j :: 0 <= j < |items| && NodePath(items[j].0) == ParentPath(items[i].0) ==>
           j < i && rows[i].parent == Some(firstId + j)) &&
        (rows[i].parent.None? <==> forall j :: 0 <= j < |items| ==> NodePath(items[j].0) != ParentPath(items[i].0))
  {
    var items := SortItems(Items(Aggregate(paras, lo, n, true)));
    SortedGroupsWellSorted(paras, lo, n);
    TreeParents(items, firstId);
    InsertAllIds(items, firstId);
  }

  /** `parse_word_to_db` after opening the document; returns the rows and
      `rows_inserted`. */
  method ParseWordToDb(paras: seq<Paragraph>, n: int, firstId: nat) returns (rows: seq<MaterialRow>, rowsInserted: nat)
    ensures rows == ParsedRows(paras, n, firstId) && rowsInserted == |rows|
    ensures LevelRange(paras).None? ==> rows == []
  {
    var levels := LevelRange(paras);
    if levels.None? {
      return [], 0;
    }
    var (lo, hi) := levels.value;
    ParsedWithHeadings(paras, n, firstId, lo, hi);
    var order, content := AggregateContent(paras, lo, n, true);
    var sorted := SortItems(Items(Groups(order, content)));
    rows, rowsInserted := InsertNodes(sorted, firstId);
  }
}
