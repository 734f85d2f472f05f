/** The tenant registry: an ordered collection from tenant column to the
    ids registered for it, oldest first. It follows the collection the
    manager keeps: `put` replaces a key in place or appends a new key at the
    end, `get` looks a key up, `only` restricts to a list of keys and
    `reject` drops entries. */
module TenantRegistry {
  import opened TenantValues

  /** One registry entry: a tenant column and its ids in insertion order. */
  type Entry = (Column, seq<Id>)

  /** The registry, entries in the order their columns were first put. */
  type Registry = seq<Entry>

  function Keys(r: Registry): (ks: seq<Column>)
    ensures |ks| == |r|
  {
    if r == [] then [] else [r[0].0] + Keys(r[1..])
  }

  predicate Distinct(ks: seq<Column>) {
    ks == [] || (ks[0] !in ks[1..] && Distinct(ks[1..]))
  }

  /** The registry invariant: every column appears once and maps to a
      non-empty list of ids. */
  predicate Valid(r: Registry) {
    && Distinct(Keys(r))
    && forall e :: e in r ==> e.1 != []
  }

  /** `get`: the ids of the first entry for `c`, if any. */
  function Get(r: Registry, c: Column): (o: Option<seq<Id>>)
    ensures o.Some? <==> c in Keys(r)
    ensures o.Some? ==> (c, o.value) in r
  {
    if r == [] then None
    else if r[0].0 == c then Some(r[0].1)
    else Get(r[1..], c)
  }

  /** `get` with an empty default: the ids of `c`, or the empty list. */
  function GetOrEmpty(r: Registry, c: Column): seq<Id> {
    match Get(r, c)
    case Some(ids) => ids
    case None => []
  }

  /** The primary (first registered) id of column `c`, if there is one. */
  function Primary(r: Registry, c: Column): Option<Id> {
    match Get(r, c)
    case Some(ids) => if ids == [] then None else Some(ids[0])
    case None => None
  }

  /** The first id of the first registered column. */
  function FirstPrimary(r: Registry): Option<Id> {
    if r == [] || r[0].1 == [] then None else Some(r[0].1[0])
  }

  /** `put`: replace the entry of `c` where it stands, or append it. */
  function Put(r: Registry, c: Column, v: seq<Id>): Registry {
    if r == [] then [(c, v)]
    else if r[0].0 == c then [(c, v)] + r[1..]
    else [r[0]] + Put(r[1..], c, v)
  }

  /** The ids of a column after rejecting `id`: every id strictly equal to
      it is dropped and the others keep their order, renumbered from zero.
      A null `id` equals no registered id. */
  function RemoveValue(ids: seq<Id>, id: Option<Id>): seq<Id> {
    if ids == [] then []
    else (if Some(ids[0]) == id then [] else [ids[0]]) + RemoveValue(ids[1..], id)
  }

  /** The registry after rejecting every entry whose id list is empty. */
  function DropEmpty(r: Registry): Registry {
    if r == [] then []
    else (if r[0].1 == [] then [] else [r[0]]) + DropEmpty(r[1..])
  }

  /** The column list `ks` without `c`. */
  function Without(ks: seq<Column>, c: Column): seq<Column> {
    if ks == [] then []
    else (if ks[0] == c then [] else [ks[0]]) + Without(ks[1..], c)
  }

  /** `after` is `before` with `id` appended to the ids of `c`; a new
      column goes to the end and no other column changes. */
  ghost predicate Appended(before: Registry, after: Registry, c: Column, id: Id) {
    && Keys(after) == (if c in Keys(before) then Keys(before) else Keys(before) + [c])
    && Get(after, c) == Some(GetOrEmpty(before, c) + [id])
    && forall c' :: c' != c ==> Get(after, c') == Get(before, c')
  }

  /** `after` is `before` with every occurrence of `id` taken out of the ids
      of `c`; a column left without ids disappears, no other column changes
      and the remaining columns keep their order. */
  ghost predicate Removed(before: Registry, after: Registry, c: Column, id: Option<Id>) {
    var left := RemoveValue(GetOrEmpty(before, c), id);
    && Get(after, c) == (if left == [] then None else Some(left))
    && Keys(after) == (if left == [] then Without(Keys(before), c) else Keys(before))
    && forall c' :: c' != c ==> Get(after, c') == Get(before, c')
  }

  /** `addToCollection`: append `id` to the ids of `c`. */
  function Push(r: Registry, c: Column, id: Id): (r': Registry)
    ensures Appended(r, r', c, id)
    ensures Valid(r) ==> Valid(r')
  {
    PushCorrect(r, c, id);
    Put(r, c, GetOrEmpty(r, c) + [id])
  }

  /** `removeFromCollection`: put back the ids of `c` without `id`, then
      reject every empty entry. */
  function Remove(r: Registry, c: Column, id: Option<Id>): (r': Registry)
    ensures Valid(r) ==> Valid(r') && Removed(r, r', c, id)
    ensures Valid(r) && c !in Keys(r) ==> r' == r
  {
    RemoveCorrect(r, c, id);
    DropEmpty(Put(r, c, RemoveValue(GetOrEmpty(r, c), id)))
  }

  /** `sub` is `r` with some entries left out: the entries of `sub` occur
      in `r`, in the same order. */
  predicate Subsequence(sub: Registry, r: Registry)
    decreases |r|
  {
    if sub == [] then true
    else if r == [] then false
    else if sub[0] == r[0] then Subsequence(sub[1..], r[1..])
    else Subsequence(sub, r[1..])
  }

  /** `only`: the entries whose column is among `columns`, in registry
      order. */
  function Only(r: Registry, columns: seq<Column>): (o: Registry)
    ensures forall e :: e in o <==> e in r && e.0 in columns
    ensures Subsequence(o, r)
    ensures forall c :: Get(o, c) == if c in columns then Get(r, c) else None
    ensures Valid(r) ==> Valid(o)
  {
    if r == [] then []
    else
      var h, rest := r[0], Only(r[1..], columns);
      assert r == [h] + r[1..];
      if h.0 in columns then
        GetCons(h, rest);
        KeysCons(h, rest);
        assert Valid(r) ==> h.0 !in Keys(rest) by {
          if Valid(r) {
            assert Get(r[1..], h.0).None?;
            assert Get(rest, h.0).None?;
          }
        }
        [h] + rest
      else
        rest
  }

  // ---------------------------------------------------------------------
  // Lemmas about the collection primitives.

  lemma KeysCons(h: Entry, t: Registry)
    ensures Keys([h] + t) == [h.0] + Keys(t)
  {
    assert ([h] + t)[1..] == t;
  }

  lemma GetCons(h: Entry, t: Registry)
    ensures forall c :: Get([h] + t, c) == if h.0 == c then Some(h.1) else Get(t, c)
  {
    assert ([h] + t)[1..] == t;
  }

  lemma {:induction false} KeysAppend(a: Registry, b: Registry)
    ensures Keys(a + b) == Keys(a) + Keys(b)
  {
    if a != [] {
      assert a + b == [a[0]] + (a[1..] + b);
      assert a == [a[0]] + a[1..];
      KeysCons(a[0], a[1..] + b);
      KeysCons(a[0], a[1..]);
      KeysAppend(a[1..], b);
    } else {
      assert a + b == b;
    }
  }

  lemma {:induction false} DistinctAppend(ks: seq<Column>, c: Column)
    requires Distinct(ks) && c !in ks
    ensures Distinct(ks + [c])
  {
    if ks != [] {
      assert (ks + [c])[1..] == ks[1..] + [c];
      DistinctAppend(ks[1..], c);
    }
  }

  lemma {:induction false} WithoutAbsent(ks: seq<Column>, c: Column)
    requires c !in ks
    ensures Without(ks, c) == ks
  {
    if ks != [] {
      WithoutAbsent(ks[1..], c);
    }
  }

  lemma {:induction false} WithoutSubset(ks: seq<Column>, c: Column)
    ensures forall x :: x in Without(ks, c) ==> x in ks && x != c
  {
    if ks != [] {
      WithoutSubset(ks[1..], c);
    }
  }

  lemma {:induction false} WithoutDistinct(ks: seq<Column>, c: Column)
    requires Distinct(ks)
    ensures Distinct(Without(ks, c))
  {
    if ks != [] {
      var w := Without(ks[1..], c);
      WithoutDistinct(ks[1..], c);
      WithoutSubset(ks[1..], c);
      if ks[0] != c {
        assert ([ks[0]] + w)[1..] == w;
      } else {
        assert [] + w == w;
      }
    }
  }

  lemma {:induction false} PutKeys(r: Registry, c: Column, v: seq<Id>)
    ensures Keys(Put(r, c, v)) == if c in Keys(r) then Keys(r) else Keys(r) + [c]
  {
    if r != [] && r[0].0 != c {
      PutKeys(r[1..], c, v);
    }
  }

  lemma {:induction false} PutGet(r: Registry, c: Column, v: seq<Id>)
    ensures forall c' :: Get(Put(r, c, v), c') == if c' == c then Some(v) else Get(r, c')
  {
    if r != [] && r[0].0 != c {
      PutGet(r[1..], c, v);
    }
  }

  lemma {:induction false} PutEntries(r: Registry, c: Column, v: seq<Id>)
    ensures forall e :: e in Put(r, c, v) ==> e in r || e == (c, v)
  {
    if r != [] && r[0].0 != c {
      PutEntries(r[1..], c, v);
    }
  }

  lemma {:induction false} PutAbsent(r: Registry, c: Column, v: seq<Id>)
    requires c !in Keys(r)
    ensures Put(r, c, v) == r + [(c, v)]
  {
    if r != [] {
      PutAbsent(r[1..], c, v);
    }
  }

  lemma {:induction false} DropEmptyAppend(a: Registry, b: Registry)
    ensures DropEmpty(a + b) == DropEmpty(a) + DropEmpty(b)
  {
    if a != [] {
      assert (a + b)[1..] == a[1..] + b;
      assert (a + b)[0] == a[0];
      DropEmptyAppend(a[1..], b);
      var h := if a[0].1 == [] then [] else [a[0]];
      assert DropEmpty(a + b) == h + (DropEmpty(a[1..]) + DropEmpty(b));
    } else {
      assert a + b == b;
    }
  }

  lemma {:induction false} DropEmptyNonEmpty(r: Registry)
    requires forall e :: e in r ==> e.1 != []
    ensures DropEmpty(r) == r
  {
    if r != [] {
      DropEmptyNonEmpty(r[1..]);
    }
  }

  lemma {:induction false} DropEmptyEntries(r: Registry)
    ensures forall e :: e in DropEmpty(r) <==> e in r && e.1 != []
  {
    if r != [] {
      DropEmptyEntries(r[1..]);
      assert r == [r[0]] + r[1..];
    }
  }

  lemma {:induction false} DropEmptyGet(r: Registry, c: Column)
    requires Distinct(Keys(r))
    ensures Get(DropEmpty(r), c) == if Get(r, c) == Some([]) then None else Get(r, c)
  {
    if r != [] {
      var h, t := r[0], r[1..];
      assert r == [h] + t;
      KeysCons(h, t);
      GetCons(h, t);
      DropEmptyGet(t, c);
      if h.1 != [] {
        GetCons(h, DropEmpty(t));
      } else {
        assert DropEmpty(r) == DropEmpty(t);
      }
      if h.0 == c {
        assert c !in Keys(t);
      }
    }
  }

  /** With unique keys, when only column `c` may be empty, rejecting the
      empty entries removes `c` from the key order exactly when its list is
      empty. */
  lemma {:induction false} DropEmptyKeys(r: Registry, c: Column)
    requires Distinct(Keys(r))
    requires forall e :: e in r && e.1 == [] ==> e.0 == c
    ensures Keys(DropEmpty(r)) == if Get(r, c) == Some([]) then Without(Keys(r), c) else Keys(r)
  {
    if r != [] {
      var h, t := r[0], r[1..];
      assert r == [h] + t;
      DropEmptyKeys(t, c);
      KeysAppend(if h.1 == [] then [] else [h], DropEmpty(t));
      if h.0 == c {
        assert c !in Keys(t);
        WithoutAbsent(Keys(t), c);
      }
    }
  }

  /** Every stored list of a valid registry is non-empty. */
  lemma GetValid(r: Registry, c: Column)
    requires Valid(r)
    ensures Get(r, c) != Some([])
  {
  }

  lemma PushCorrect(r: Registry, c: Column, id: Id)
    ensures var res := Put(r, c, GetOrEmpty(r, c) + [id]);
      Appended(r, res, c, id) && (Valid(r) ==> Valid(res))
  {
    var v := GetOrEmpty(r, c) + [id];
    PutKeys(r, c, v);
    PutGet(r, c, v);
    PutEntries(r, c, v);
    if c !in Keys(r) && Valid(r) {
      DistinctAppend(Keys(r), c);
    }
  }

  lemma {:induction false} RemoveCorrect(r: Registry, c: Column, id: Option<Id>)
    ensures var res := DropEmpty(Put(r, c, RemoveValue(GetOrEmpty(r, c), id)));
      Valid(r) ==> Valid(res) && Removed(r, res, c, id) && (c !in Keys(r) ==> res == r)
  {
    if Valid(r) {
      RemoveCorrectValid(r, c, id);
    }
  }

  lemma {:induction false} RemoveCorrectValid(r: Registry, c: Column, id: Option<Id>)
    requires Valid(r)
    ensures var res := DropEmpty(Put(r, c, RemoveValue(GetOrEmpty(r, c), id)));
      Valid(res) && Removed(r, res, c, id) && (c !in Keys(r) ==> res == r)
  {
    var v := RemoveValue(GetOrEmpty(r, c), id);
    var p := Put(r, c, v);
    var res := DropEmpty(p);
    PutKeys(r, c, v);
    PutGet(r, c, v);
    PutEntries(r, c, v);
    DropEmptyEntries(p);
    if c !in Keys(r) {
      assert v == [];
      PutAbsent(r, c, v);
      DropEmptyAppend(r, [(c, v)]);
      DropEmptyNonEmpty(r);
      assert res == r;
      WithoutAbsent(Keys(r), c);
    } else {
      forall c' | c' != c
        ensures Get(res, c') == Get(r, c')
      {
        DropEmptyGet(p, c');
        GetValid(r, c');
      }
      DropEmptyGet(p, c);
      DropEmptyKeys(p, c);
      WithoutDistinct(Keys(r), c);
    }
  }

  /** Removing `id` leaves no copy of it and every other id as many times
      as before. */
  lemma {:induction false} RemoveValueCounts(ids: seq<Id>, id: Option<Id>)
    ensures forall x :: multiset(RemoveValue(ids, id))[x] == if Some(x) == id then 0 else multiset(ids)[x]
  {
    if ids != [] {
      assert ids == [ids[0]] + ids[1..];
      RemoveValueCounts(ids[1..], id);
    }
  }

  /** Removing an id from a list distributes over concatenation, so the
      surviving ids keep their relative order. */
  lemma {:induction false} RemoveValueAppend(a: seq<Id>, b: seq<Id>, id: Option<Id>)
    ensures RemoveValue(a + b, id) == RemoveValue(a, id) + RemoveValue(b, id)
  {
    if a != [] {
      assert (a + b)[1..] == a[1..] + b;
      assert (a + b)[0] == a[0];
      RemoveValueAppend(a[1..], b, id);
      var h := if Some(a[0]) == id then [] else [a[0]];
      assert RemoveValue(a + b, id) == h + (RemoveValue(a[1..], id) + RemoveValue(b, id));
    } else {
      assert a + b == b;
    }
  }

  lemma {:induction false} RemoveValueAbsent(ids: seq<Id>, id: Id)
    requires id !in ids
    ensures RemoveValue(ids, Some(id)) == ids
  {
    if ids != [] {
      assert ids == [ids[0]] + ids[1..];
      RemoveValueAbsent(ids[1..], id);
    }
  }

  lemma {:induction false} WithoutAppend(ks: seq<Column>, c: Column)
    ensures Without(ks + [c], c) == Without(ks, c)
  {
    if ks != [] {
      assert (ks + [c])[1..] == ks[1..] + [c];
      WithoutAppend(ks[1..], c);
    } else {
      assert Without([c], c) == [] + Without([], c);
    }
  }

  /** A valid registry is determined by its key order and its lookups. */
  lemma {:induction false} Extensionality(a: Registry, b: Registry)
    requires Valid(a) && Valid(b)
    requires Keys(a) == Keys(b)
    requires forall c :: Get(a, c) == Get(b, c)
    ensures a == b
  {
    if a != [] {
      var c := a[0].0;
      assert a == [a[0]] + a[1..] && b == [b[0]] + b[1..];
      KeysCons(a[0], a[1..]);
      KeysCons(b[0], b[1..]);
      GetCons(a[0], a[1..]);
      GetCons(b[0], b[1..]);
      assert b[0].0 == c;
      assert Get(a, c) == Some(a[0].1);
      assert Get(b, c) == Some(b[0].1);
      assert a[0] == (c, a[0].1) && b[0] == (c, b[0].1);
      forall c' ensures Get(a[1..], c') == Get(b[1..], c') {
        if c' == c {
          assert c !in Keys(a[1..]) && c !in Keys(b[1..]);
        }
      }
      assert Valid(a[1..]) by {
        forall e | e in a[1..] ensures e.1 != [] {
          assert e in a;
        }
      }
      assert Valid(b[1..]) by {
        forall e | e in b[1..] ensures e.1 != [] {
          assert e in b;
        }
      }
      Extensionality(a[1..], b[1..]);
    }
  }

  /** Removing an id that was just appended, and was not registered for the
      column before, gives back the registry as it was. */
  lemma {:induction false} RemoveUndoesPush(r: Registry, c: Column, id: Id)
    requires Valid(r)
    requires id !in GetOrEmpty(r, c)
    ensures Remove(Push(r, c, id), c, Some(id)) == r
  {
    var old_ := GetOrEmpty(r, c);
    var p := Push(r, c, id);
    var q := Remove(p, c, Some(id));
    assert Valid(p) && Appended(r, p, c, id);
    assert Valid(q) && Removed(p, q, c, Some(id));
    assert RemoveValue(GetOrEmpty(p, c), Some(id)) == old_ by {
      assert GetOrEmpty(p, c) == old_ + [id];
      RemoveValueAppend(old_, [id], Some(id));
      RemoveValueAbsent(old_, id);
      assert RemoveValue([id], Some(id)) == [];
      assert old_ + [] == old_;
    }
    GetValid(r, c);
    assert Get(q, c) == Get(r, c);
    assert Keys(q) == Keys(r) by {
      if c !in Keys(r) {
        WithoutAppend(Keys(r), c);
        WithoutAbsent(Keys(r), c);
      }
    }
    Extensionality(q, r);
  }

  lemma {:induction false} GetAfterAbsent(pre: Registry, rest: Registry, c: Column)
    requires c !in Keys(pre)
    ensures Get(pre + rest, c) == Get(rest, c)
  {
    if pre != [] {
      assert pre + rest == [pre[0]] + (pre[1..] + rest);
      assert pre == [pre[0]] + pre[1..];
      KeysCons(pre[0], pre[1..]);
      GetCons(pre[0], pre[1..] + rest);
      GetAfterAbsent(pre[1..], rest, c);
    } else {
      assert pre + rest == rest;
    }
  }

  lemma {:induction false} PutInPlace(pre: Registry, c: Column, v: seq<Id>, post: Registry, w: seq<Id>)
    requires c !in Keys(pre)
    ensures Put(pre + [(c, v)] + post, c, w) == pre + [(c, w)] + post
  {
    if pre != [] {
      assert pre == [pre[0]] + pre[1..];
      KeysCons(pre[0], pre[1..]);
      assert (pre + [(c, v)] + post)[1..] == pre[1..] + [(c, v)] + post;
      PutInPlace(pre[1..], c, v, post, w);
    } else {
      assert ([(c, v)] + post)[1..] == post;
    }
  }

  /** `addTenant` on a registered column appends the id to that column's
      list where the column stands; nothing else moves. */
  lemma PushInPlace(pre: Registry, c: Column, v: seq<Id>, post: Registry, id: Id)
    requires c !in Keys(pre)
    ensures Push(pre + [(c, v)] + post, c, id) == pre + [(c, v + [id])] + post
  {
    assert pre + [(c, v)] + post == pre + ([(c, v)] + post);
    GetAfterAbsent(pre, [(c, v)] + post, c);
    GetCons((c, v), post);
    PutInPlace(pre, c, v, post, v + [id]);
  }

  /** `addTenant` on a new column appends the column, with the one id, at
      the end of the registry. */
  lemma PushFresh(r: Registry, c: Column, id: Id)
    requires c !in Keys(r)
    ensures Push(r, c, id) == r + [(c, [id])]
  {
    assert [] + [id] == [id];
    PutAbsent(r, c, [id]);
  }

  /** `removeTenant` on a column whose neighbours hold ids replaces its
      list, where it stands, with the ids that survive, or drops the column
      when none survives. */
  lemma RemoveInPlace(pre: Registry, c: Column, v: seq<Id>, post: Registry, id: Option<Id>)
    requires c !in Keys(pre)
    requires forall e :: e in pre + post ==> e.1 != []
    ensures var w := RemoveValue(v, id);
      Remove(pre + [(c, v)] + post, c, id) == pre + (if w == [] then [] else [(c, w)]) + post
  {
    var w := RemoveValue(v, id);
    var x := pre + [(c, v)] + post;
    assert x == pre + ([(c, v)] + post);
    GetAfterAbsent(pre, [(c, v)] + post, c);
    GetCons((c, v), post);
    assert GetOrEmpty(x, c) == v;
    PutInPlace(pre, c, v, post, w);
    var p := pre + [(c, w)] + post;
    assert Remove(x, c, id) == DropEmpty(p);
    assert forall e :: e in pre ==> e in pre + post;
    assert forall e :: e in post ==> e in pre + post;
    DropEmptyAppend(pre + [(c, w)], post);
    DropEmptyAppend(pre, [(c, w)]);
    DropEmptyNonEmpty(pre);
    DropEmptyNonEmpty(post);
    var mid: Registry := if w == [] then [] else [(c, w)];
    assert [(c, w)][1..] == [];
    assert DropEmpty([(c, w)]) == mid + DropEmpty([]);
    assert DropEmpty([(c, w)]) == mid;
    assert DropEmpty(pre + [(c, w)]) == pre + mid;
    assert DropEmpty(p) == (pre + mid) + post;
  }
}
