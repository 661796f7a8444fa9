/**
 * The `textures` table of the texture manager, a std::map from file name to
 * (x, y, width, height). It is modelled as a list of entries kept in strictly
 * increasing key order, which is also the order a range-for visits them.
 */
module AtlasTable {
  import opened Wrappers
  import StringOrder

  /** The stored Vec4f: atlas position (x, y) and size; (-1, -1) before the atlas is built. */
  datatype Slot = Slot(x: int, y: int, width: int, height: int)

  datatype Entry = Entry(name: string, slot: Slot)

  type Table = seq<Entry>

  /** Keys strictly increasing, as std::map keeps them. */
  ghost predicate Sorted(t: Table)
  {
    forall i, j :: 0 <= i < j < |t| ==> StringOrder.Less(t[i].name, t[j].name)
  }

  function Names(t: Table): set<string>
  {
    set e | e in t :: e.name
  }

  /** `find`/`operator[]` on an existing key: the slot stored under `name`, if any. */
  function Find(t: Table, name: string): (r: Option<Slot>)
    ensures r.Some? <==> name in Names(t)
    ensures r.Some? ==> Entry(name, r.value) in t
  {
    if t == [] then None
    else if t[0].name == name then Some(t[0].slot)
    else
      var r := Find(t[1..], name);
      assert Names(t) == {t[0].name} + Names(t[1..]) by {
        assert t == [t[0]] + t[1..];
      }
      r
  }

  /** In a sorted table each key appears once, so Find returns the entry at its position. */
  lemma {:induction false} FindAt(t: Table, k: nat)
    requires Sorted(t) && k < |t|
    ensures Find(t, t[k].name) == Some(t[k].slot)
    decreases k
  {
    if k > 0 {
      if t[0].name == t[k].name {
        StringOrder.LessIrreflexive(t[0].name);
        assert false;
      }
      assert Sorted(t[1..]);
      FindAt(t[1..], k - 1);
    }
  }

  /** A key of the table sits at some position. */
  lemma NameIndex(t: Table, name: string) returns (k: nat)
    requires name in Names(t)
    ensures k < |t| && t[k].name == name
  {
    var e :| e in t && e.name == name;
    k :| k < |t| && t[k] == e;
  }

  lemma NamesCons(x: Entry, t: Table)
    ensures Names([x] + t) == {x.name} + Names(t)
  {
    var r := [x] + t;
    forall n | n in Names(r)
      ensures n in {x.name} + Names(t)
    {
      var e :| e in r && e.name == n;
      if e != x {
        assert e in t;
      }
    }
    forall n | n in Names(t)
      ensures n in Names(r)
    {
      var e :| e in t && e.name == n;
      assert e in r;
    }
    assert x in r;
  }

  /** A sorted table's first key lies below every later key. */
  lemma HeadBelowRest(t: Table)
    requires Sorted(t) && |t| > 0
    ensures forall n :: n in Names(t[1..]) ==> StringOrder.Less(t[0].name, n)
  {
    forall n | n in Names(t[1..])
      ensures StringOrder.Less(t[0].name, n)
    {
      var i :| 0 <= i < |t| - 1 && t[1..][i].name == n;
      assert t[i + 1].name == n;
    }
  }

  /** Putting an entry in front of a sorted table whose keys all lie above it keeps it sorted. */
  lemma SortedCons(x: Entry, t: Table)
    requires Sorted(t)
    requires forall n :: n in Names(t) ==> StringOrder.Less(x.name, n)
    ensures Sorted([x] + t)
  {
    var r := [x] + t;
    forall i, j | 0 <= i < j < |r|
      ensures StringOrder.Less(r[i].name, r[j].name)
    {
      assert r[j] == t[j - 1];
      if i == 0 {
        assert t[j - 1] in t;
      } else {
        assert r[i] == t[i - 1];
      }
    }
  }

  /**
   * `r` is `t` with entry `e` inserted: one entry longer, exactly one more key,
   * `e`'s slot found under its key when that key is new, every other key's slot
   * as before, and sortedness kept when the key is new.
   */
  ghost predicate InsertedInto(t: Table, e: Entry, r: Table)
  {
    && |r| == |t| + 1
    && Names(r) == Names(t) + {e.name}
    && (e.name !in Names(t) ==> Find(r, e.name) == Some(e.slot))
    && (forall n :: n != e.name ==> Find(r, n) == Find(t, n))
    && (Sorted(t) && e.name !in Names(t) ==> Sorted(r))
  }

  /** Placing `e` in front works when its key lies below the first key. */
  lemma InsertInFront(t: Table, e: Entry)
    requires t == [] || StringOrder.Less(e.name, t[0].name)
    ensures InsertedInto(t, e, [e] + t)
  {
    var r := [e] + t;
    assert r[1..] == t;
    NamesCons(e, t);
    if Sorted(t) {
      SortedInFront(t, e);
    }
  }

  /** The sortedness half of InsertInFront. */
  lemma SortedInFront(t: Table, e: Entry)
    requires t == [] || StringOrder.Less(e.name, t[0].name)
    requires Sorted(t)
    ensures Sorted([e] + t)
  {
    if t != [] {
      HeadBelowRest(t);
      forall n | n in Names(t)
        ensures StringOrder.Less(e.name, n)
      {
        if n != t[0].name {
          assert t == [t[0]] + t[1..];
          NamesCons(t[0], t[1..]);
          StringOrder.LessTransitive(e.name, t[0].name, n);
        }
      }
    }
    SortedCons(e, t);
  }

  /** Keeping the first entry in front of the insertion into the rest works when `e`'s key is not below it. */
  lemma InsertBehindHead(t: Table, e: Entry, rest: Table)
    requires t != [] && !StringOrder.Less(e.name, t[0].name)
    requires InsertedInto(t[1..], e, rest)
    ensures InsertedInto(t, e, [t[0]] + rest)
  {
    var r := [t[0]] + rest;
    assert t == [t[0]] + t[1..];
    assert r[1..] == rest;
    NamesCons(t[0], rest);
    NamesCons(t[0], t[1..]);
    if Sorted(t) && e.name !in Names(t) {
      SortedBehindHead(t, e, rest);
    }
  }

  /** The sortedness half of InsertBehindHead. */
  lemma SortedBehindHead(t: Table, e: Entry, rest: Table)
    requires t != [] && !StringOrder.Less(e.name, t[0].name)
    requires Sorted(t) && e.name !in Names(t)
    requires Sorted(t[1..]) ==> Sorted(rest)
    requires Names(rest) == Names(t[1..]) + {e.name}
    ensures Sorted([t[0]] + rest)
  {
    assert Sorted(t[1..]);
    HeadBelowRest(t);
    assert t[0] in t;
    StringOrder.LessTotal(e.name, t[0].name);
    SortedCons(t[0], rest);
  }

  /** Insertion of an entry at its ordered position (operator[] on a key not yet present). */
  function Insert(t: Table, e: Entry): (r: Table)
    ensures InsertedInto(t, e, r)
    decreases |t|
  {
    if t == [] || StringOrder.Less(e.name, t[0].name) then
      InsertInFront(t, e);
      [e] + t
    else
      var rest := Insert(t[1..], e);
      InsertBehindHead(t, e, rest);
      [t[0]] + rest
  }

  /** Overwriting the slot at position k keeps every key in place. */
  function SetSlot(t: Table, k: nat, s: Slot): (r: Table)
    requires k < |t|
    ensures |r| == |t| && r[k] == Entry(t[k].name, s)
    ensures forall i :: 0 <= i < |t| && i != k ==> r[i] == t[i]
    ensures forall i :: 0 <= i < |t| ==> r[i].name == t[i].name
    ensures Sorted(t) ==> Sorted(r)
  {
    t[k := Entry(t[k].name, s)]
  }
}
