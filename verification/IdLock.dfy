/** The append-only id lock: renames, assignment of new ids, and what survives any number of runs
    (tools/map_pipeline/ids.py, with the lock's validators in tools/map_pipeline/models.py). */
module IdLock {
  import opened Optional
  import opened Sorting

  type Key = string

  const MIN_NODE_ID := 1001

  /** The lock file: the id of every key, and for each renamed key the keys it superseded, oldest first. */
  datatype Lock = Lock(ids: map<Key, int>, previous: map<Key, seq<Key>>)

  const EMPTY := Lock(map[], map[])

  function Chain(previous: map<Key, seq<Key>>, k: Key): seq<Key> {
    if k in previous then previous[k] else []
  }

  /** What the loader checks: ids in range and unique; every chain belongs to a locked key, is not empty, repeats
      nothing and lists no live key. */
  predicate LockOk(l: Lock) {
    IdsOk(l.ids) &&
    forall k :: k in l.previous ==>
      k in l.ids && l.previous[k] != [] && (forall i, j :: 0 <= i < j < |l.previous[k]| ==>
        l.previous[k][i] != l.previous[k][j]) &&
      forall i :: 0 <= i < |l.previous[k]| ==> l.previous[k][i] !in l.ids
  }

  predicate IdsOk(ids: map<Key, int>) {
    (forall k :: k in ids ==> ids[k] >= MIN_NODE_ID) && forall j, k :: j in ids && k in ids && j != k ==>
      ids[j] != ids[k]
  }

  // ---------------------------------------------------------------- ordering

  predicate StrLeq(a: Key, b: Key) {
    a == [] || (b != [] && (a[0] < b[0] || (a[0] == b[0] && StrLeq(a[1..], b[1..]))))
  }

  lemma {:induction false} StrTotal(a: Key, b: Key)
    ensures StrLeq(a, b) || StrLeq(b, a)
    ensures StrLeq(a, b) && StrLeq(b, a) ==> a == b
  {
    if a != [] && b != [] && a[0] == b[0] {
      StrTotal(a[1..], b[1..]);
      assert a == [a[0]] + a[1..] && b == [b[0]] + b[1..];
    }
  }

  lemma {:induction false} StrTrans(a: Key, b: Key, c: Key)
    requires StrLeq(a, b) && StrLeq(b, c)
    ensures StrLeq(a, c)
  {
    if a != [] && b != [] && c != [] && a[0] == b[0] == c[0] {
      StrTrans(a[1..], b[1..], c[1..]);
    }
  }

  ghost predicate Least(s: set<Key>, k: Key) {
    k in s && forall j :: j in s ==> StrLeq(k, j)
  }

  lemma LeastUnique(s: set<Key>, j: Key, k: Key)
    requires Least(s, j) && Least(s, k)
    ensures j == k
  {
    StrTotal(j, k);
  }

  /** The first key of a set in sorted order. */
  method FirstKey(s: set<Key>) returns (k: Key)
    requires s != {}
    ensures Least(s, k)
  {
    k :| k in s;
    var rest := s - {k};
    StrTotal(k, k);
    while rest != {}
      invariant k in s && rest <= s && forall j :: j in s - rest ==> StrLeq(k, j)
      decreases rest
    {
      var j :| j in rest;
      StrTotal(j, k);
      StrTotal(j, j);
      if StrLeq(j, k) {
        forall i | i in s - rest
          ensures StrLeq(j, i)
        {
          StrTrans(j, k, i);
        }
        k := j;
      }
      rest := rest - {j};
    }
  }

  lemma {:induction false} LeastExists(s: set<Key>)
    requires s != {}
    ensures exists k :: Least(s, k)
    decreases s
  {
    var k :| k in s;
    StrTotal(k, k);
    if s == {k} {
      assert Least(s, k);
    } else {
      LeastExists(s - {k});
      var j :| Least(s - {k}, j);
      StrTotal(j, k);
      if StrLeq(j, k) {
        assert Least(s, j);
      } else {
        forall i | i in s
          ensures StrLeq(k, i)
        {
          if i != k {
            StrTrans(k, j, i);
          }
        }
        assert Least(s, k);
      }
    }
  }

  /** The keys of a set in sorted order. */
  ghost predicate InOrder(s: set<Key>, q: seq<Key>) {
    (forall i, j :: 0 <= i < j < |q| ==> q[i] != q[j] && StrLeq(q[i], q[j])) && forall k :: k in q <==> k in s
  }

  method SortKeys(s: set<Key>) returns (q: seq<Key>)
    ensures InOrder(s, q)
  {
    q := [];
    var rest := s;
    while rest != {}
      invariant rest <= s && InOrder(s - rest, q)
      invariant forall i, k :: 0 <= i < |q| && k in rest ==> StrLeq(q[i], k)
      decreases rest
    {
      var k := FirstKey(rest);
      assert k !in q;
      q := q + [k];
      rest := rest - {k};
    }
  }

  // ----------------------------------------------------------------- renames

  datatype Rename = Rename(old_: Key, new_: Key)

  /** The locked keys in whose chain a key appears. */
  function Holders(l: Lock, old_: Key): set<Key> {
    set k | k in l.ids && old_ in Chain(l.previous, k)
  }

  /** The key under which the id of a renamed key is locked: the key itself, or - unless the new key is locked - the
      first key in whose chain it appears. */
  ghost function Holder(l: Lock, r: Rename): Option<Key> {
    if r.old_ in l.ids then Some(r.old_)
    else if r.new_ in l.ids || Holders(l, r.old_) == {} then None
    else
      LeastExists(Holders(l, r.old_));
      var k :| Least(Holders(l, r.old_), k);
      Some(k)
  }

  function Without(chain: seq<Key>, known: seq<Key>): seq<Key> {
    if chain == [] then []
    else
      Without(chain[..|chain| - 1], known) + if chain[|chain| - 1] in known then [] else [chain[|chain| - 1]]
  }

  /** The lock after moving the id of h to a new key, which inherits the chain of h and h itself. */
  function MoveKey(l: Lock, h: Key, new_: Key): Lock
    requires h in l.ids
  {
    var chain := Chain(l.previous, h) + [h];
    var own := Chain(l.previous - {h}, new_);
    Lock((l.ids - {h})[new_ := l.ids[h]], (l.previous - {h})[new_ := own + Without(chain, own)])
  }

  /** The lock after recording a superseded key whose id is not to be moved. */
  function NoteKey(l: Lock, r: Rename): Lock {
    if r.old_ in Chain(l.previous, r.new_) then l
    else Lock(l.ids, l.previous[r.new_ := Chain(l.previous, r.new_) + [r.old_]])
  }

  ghost function RenameOne(l: Lock, r: Rename): Option<Lock> {
    match Holder(l, r)
    case Some(h) => if r.new_ in l.ids then None else Some(MoveKey(l, h, r.new_))
    case None => Some(NoteKey(l, r))
  }

  ghost function RenameAll(l: Lock, renames: seq<Rename>): Option<Lock> {
    if renames == [] then Some(l)
    else
      match RenameAll(l, renames[..|renames| - 1])
      case None => None
      case Some(m) => RenameOne(m, renames[|renames| - 1])
  }

  lemma {:induction false} RenameFails(l: Lock, renames: seq<Rename>, n: nat)
    requires n <= |renames| && RenameAll(l, renames[..n]).None?
    ensures RenameAll(l, renames).None?
    decreases |renames| - n
  {
    if n < |renames| {
      assert renames[..n + 1][..n] == renames[..n];
      RenameFails(l, renames, n + 1);
    } else {
      assert renames[..n] == renames;
    }
  }

  /** The two dictionaries, changed in place. */
  class LockState {
    var ids: map<Key, int>
    var previous: map<Key, seq<Key>>

    constructor (l: Lock)
      ensures ids == l.ids && previous == l.previous
    {
      ids, previous := l.ids, l.previous;
    }

    ghost function Value(): Lock
      reads this
    {
      Lock(ids, previous)
    }

    /** One rename. */
    method ApplyRename(r: Rename) returns (ok: bool)
      modifies this
      ensures ok == RenameOne(old(Value()), r).Some?
      ensures ok ==> Value() == RenameOne(old(Value()), r).value
    {
      var holder: Option<Key> := None;
      if r.old_ in ids {
        holder := Some(r.old_);
      } else if r.new_ !in ids {
        var holders := Holders(Lock(ids, previous), r.old_);
        if holders != {} {
          var k := FirstKey(holders);
          holder := Some(k);
          ghost var h := Holder(Value(), r);
          LeastUnique(holders, k, h.value);
        }
      }
      assert holder == Holder(Value(), r);
      if holder.Some? {
        if r.new_ in ids {
          return false;
        }
        var h := holder.value;
        var chain := Chain(previous, h) + [h];
        ids := (ids - {h})[r.new_ := ids[h]];
        previous := previous - {h};
        previous := previous[r.new_ := Chain(previous, r.new_) + Without(chain, Chain(previous, r.new_))];
      } else if r.old_ !in Chain(previous, r.new_) {
        previous := previous[r.new_ := Chain(previous, r.new_) + [r.old_]];
      }
      ok := true;
    }

    /** All renames, in order; stops at the first collision. */
    method ApplyRenames(renames: seq<Rename>) returns (ok: bool)
      modifies this
      ensures ok == RenameAll(old(Value()), renames).Some?
      ensures ok ==> Value() == RenameAll(old(Value()), renames).value
    {
      for i := 0 to |renames|
        invariant RenameAll(old(Value()), renames[..i]) == Some(Value())
      {
        assert renames[..i + 1][..i] == renames[..i];
        ok := ApplyRename(renames[i]);
        if !ok {
          RenameFails(old(Value()), renames, i + 1);
          return;
        }
      }
      assert renames[..|renames|] == renames;
      ok := true;
    }
  }

  // ------------------------------------------------- what renames preserve

  /** Every key a node ever had: its current key and the superseded ones. */
  ghost function Lineage(l: Lock, k: Key): set<Key> {
    {k} + set x | x in Chain(l.previous, k)
  }

  /** k' in m holds the id k holds in l, and remembers every key k remembers. */
  ghost predicate Heir(l: Lock, k: Key, m: Lock, k': Key)
    requires k in l.ids
  {
    k' in m.ids && m.ids[k'] == l.ids[k] && Lineage(l, k) <= Lineage(m, k')
  }

  /** No locked id is lost, and the lineage of each only grows. */
  ghost predicate Carries(l: Lock, m: Lock) {
    forall k :: k in l.ids ==> exists k' :: Heir(l, k, m, k')
  }

  lemma CarriesTrans(l: Lock, m: Lock, n: Lock)
    requires Carries(l, m) && Carries(m, n)
    ensures Carries(l, n)
  {
    forall k | k in l.ids
      ensures exists k' :: Heir(l, k, n, k')
    {
      var j :| Heir(l, k, m, j);
      var i :| Heir(m, j, n, i);
      assert Heir(l, k, n, i);
    }
  }

  lemma CarriesSelf(l: Lock)
    ensures Carries(l, l)
  {
    forall k | k in l.ids
      ensures exists k' :: Heir(l, k, l, k')
    {
      assert Heir(l, k, l, k);
    }
  }

  lemma {:induction false} WithoutExact(chain: seq<Key>, known: seq<Key>, k: Key)
    ensures k in Without(chain, known) <==> k in chain && k !in known
  {
    if chain != [] {
      WithoutExact(chain[..|chain| - 1], known, k);
      assert chain == chain[..|chain| - 1] + [chain[|chain| - 1]];
    }
  }

  lemma LineageHas(l: Lock, k: Key, x: Key)
    ensures x in Lineage(l, k) <==> x == k || x in Chain(l.previous, k)
  {
  }

  lemma LineageGrows(l: Lock, k: Key, m: Lock, k': Key)
    requires k == k' || k in Chain(m.previous, k')
    requires forall x :: x in Chain(l.previous, k) ==> x in Chain(m.previous, k')
    ensures Lineage(l, k) <= Lineage(m, k')
  {
  }

  /** Moving an id: the new key remembers the old one and all it remembered; nobody else changes. */
  lemma MoveChains(l: Lock, h: Key, new_: Key)
    requires h in l.ids && new_ !in l.ids
    ensures h in Chain(MoveKey(l, h, new_).previous, new_)
    ensures forall x :: x in Chain(l.previous, h) ==> x in Chain(MoveKey(l, h, new_).previous, new_)
    ensures forall k, x :: k != h && x in Chain(l.previous, k) ==> x in Chain(MoveKey(l, h, new_).previous, k)
    ensures forall x :: x in Chain(MoveKey(l, h, new_).previous, new_) ==>
              x in Chain(l.previous, new_) || x == h || x in Chain(l.previous, h)
    ensures forall k :: k != new_ && k != h ==> Chain(MoveKey(l, h, new_).previous, k) == Chain(l.previous, k)
    ensures Chain(MoveKey(l, h, new_).previous, h) == []
  {
    var own := Chain(l.previous - {h}, new_);
    forall x
      ensures x in Chain(MoveKey(l, h, new_).previous, new_) <==> x in own || x == h || x in Chain(l.previous, h)
    {
      WithoutExact(Chain(l.previous, h) + [h], own, x);
    }
  }

  lemma MoveIds(l: Lock, h: Key, new_: Key)
    requires IdsOk(l.ids) && h in l.ids && new_ !in l.ids
    ensures IdsOk(MoveKey(l, h, new_).ids)
    ensures MoveKey(l, h, new_).ids.Values == l.ids.Values
  {
    var m := MoveKey(l, h, new_);
    forall v
      ensures v in m.ids.Values <==> v in l.ids.Values
    {
      if v in l.ids.Values {
        var k :| k in l.ids && l.ids[k] == v;
        var k' := if k == h then new_ else k;
        assert k' in m.ids && m.ids[k'] == v;
      }
      if v in m.ids.Values {
        var k :| k in m.ids && m.ids[k] == v;
        var k' := if k == new_ then h else k;
        assert k' in l.ids && l.ids[k'] == v;
      }
    }
  }

  lemma MoveCarries(l: Lock, h: Key, new_: Key)
    requires IdsOk(l.ids) && h in l.ids && new_ !in l.ids
    ensures Carries(l, MoveKey(l, h, new_))
  {
    hide Chain, Without, Lineage, IdsOk;
    var m := MoveKey(l, h, new_);
    MoveChains(l, h, new_);
    forall k | k in l.ids
      ensures exists k' :: Heir(l, k, m, k')
    {
      if k == h {
        LineageGrows(l, k, m, new_);
        assert Heir(l, k, m, new_);
      } else {
        LineageGrows(l, k, m, k);
        assert Heir(l, k, m, k);
      }
    }
  }

  lemma NoteChains(l: Lock, r: Rename)
    ensures r.old_ in Chain(NoteKey(l, r).previous, r.new_)
    ensures forall k, x :: x in Chain(NoteKey(l, r).previous, k) <==>
              x in Chain(l.previous, k) || (k == r.new_ && x == r.old_)
  {
  }

  lemma NoteCarries(l: Lock, r: Rename)
    ensures NoteKey(l, r).ids == l.ids && Carries(l, NoteKey(l, r))
  {
    hide Chain, Lineage;
    var m := NoteKey(l, r);
    NoteChains(l, r);
    assert m.ids == l.ids;
    forall k | k in l.ids
      ensures exists k' :: Heir(l, k, m, k')
    {
      LineageGrows(l, k, m, k);
      assert Heir(l, k, m, k);
    }
  }

  /** The superseded keys of a lock. */
  ghost predicate Superseded(l: Lock, x: Key) {
    exists k :: x in Chain(l.previous, k)
  }

  ghost predicate NoEmptyChain(l: Lock) {
    forall k :: k in l.previous ==> l.previous[k] != []
  }

  /** One rename keeps ids unique and in range, loses none and invents none, lets every lineage grow, forgets no
      superseded key, and supersedes exactly the old key and, if it moved an id, the key that held it. */
  lemma RenameOneKeeps(l: Lock, r: Rename)
    requires IdsOk(l.ids) && NoEmptyChain(l) && RenameOne(l, r).Some?
    ensures var m := RenameOne(l, r).value;
            IdsOk(m.ids) && NoEmptyChain(m) && Carries(l, m) && m.ids.Values == l.ids.Values &&
            r.old_ in Chain(m.previous, r.new_) &&
            (forall x :: Superseded(m, x) <==> Superseded(l, x) || x == r.old_ || Holder(l, r) == Some(x))
  {
    var m := RenameOne(l, r).value;
    match Holder(l, r)
    case Some(h) =>
      MoveCarries(l, h, r.new_);
      MoveChains(l, h, r.new_);
      MoveIds(l, h, r.new_);
      forall x
        ensures Superseded(m, x) <==> Superseded(l, x) || x == r.old_ || x == h
      {
        MovedSuperseded(l, h, r.new_, x);
      }
      if h != r.old_ {
        assert r.old_ in Chain(l.previous, h);
      }
    case None =>
      NoteCarries(l, r);
      NoteChains(l, r);
      forall x
        ensures Superseded(m, x) <==> Superseded(l, x) || x == r.old_
      {
        NotedSuperseded(l, r, x);
      }
  }

  /** Chains are kept oldest first: a key that is recorded goes last, what was recorded before it stays in front in its
      order, and a moved id brings its chain and then the key it leaves. */
  lemma RenameOrder(l: Lock, r: Rename)
    requires RenameOne(l, r).Some?
    ensures var m := RenameOne(l, r).value;
            (forall k :: Holder(l, r) != Some(k) ==> Chain(l.previous, k) <= Chain(m.previous, k)) &&
            match Holder(l, r)
            case Some(h) =>
              (r.new_ !in l.previous ==> Chain(m.previous, r.new_) == Chain(l.previous, h) + [h]) &&
              Chain(m.previous, h) == []
            case None =>
              Chain(m.previous, r.new_) ==
              Chain(l.previous, r.new_) + if r.old_ in Chain(l.previous, r.new_) then [] else [r.old_]
  {
    var m := RenameOne(l, r).value;
    if Holder(l, r).Some? {
      var h := Holder(l, r).value;
      HolderLocked(l, r);
      WithoutNothing(Chain(l.previous, h) + [h]);
      var own: seq<Key> := [];
      assert own + (Chain(l.previous, h) + [h]) == Chain(l.previous, h) + [h];
    }
  }

  lemma HolderLocked(l: Lock, r: Rename)
    ensures Holder(l, r).Some? ==> Holder(l, r).value in l.ids
  {
  }

  lemma MovedSuperseded(l: Lock, h: Key, new_: Key, x: Key)
    requires IdsOk(l.ids) && h in l.ids && new_ !in l.ids
    ensures Superseded(MoveKey(l, h, new_), x) <==> Superseded(l, x) || x == h
  {
    hide Chain, Without;
    var m := MoveKey(l, h, new_);
    MoveChains(l, h, new_);
    if Superseded(l, x) {
      var k :| x in Chain(l.previous, k);
      assert x in Chain(m.previous, if k == h then new_ else k);
    }
    if Superseded(m, x) {
      var k :| x in Chain(m.previous, k);
      assert k != h;
    }
  }

  lemma NotedSuperseded(l: Lock, r: Rename, x: Key)
    ensures Superseded(NoteKey(l, r), x) <==> Superseded(l, x) || x == r.old_
  {
    hide Chain;
    var m := NoteKey(l, r);
    NoteChains(l, r);
    if Superseded(l, x) {
      var k :| x in Chain(l.previous, k);
      assert x in Chain(m.previous, k);
    }
  }

  /** The same over all renames of a run; every source ends up superseded. */
  lemma {:induction false} RenameAllKeeps(l: Lock, renames: seq<Rename>)
    requires IdsOk(l.ids) && NoEmptyChain(l) && RenameAll(l, renames).Some?
    ensures var m := RenameAll(l, renames).value;
            IdsOk(m.ids) && NoEmptyChain(m) && Carries(l, m) && m.ids.Values == l.ids.Values &&
            (forall x :: Superseded(l, x) ==> Superseded(m, x)) &&
            (forall i :: 0 <= i < |renames| ==> Superseded(m, renames[i].old_))
    decreases |renames|
  {
    if renames == [] {
      CarriesSelf(l);
    } else {
      var front, r := renames[..|renames| - 1], renames[|renames| - 1];
      RenameAllKeeps(l, front);
      var m := RenameAll(l, front).value;
      RenameOneKeeps(m, r);
      CarriesTrans(l, m, RenameOne(m, r).value);
      forall i | 0 <= i < |renames|
        ensures Superseded(RenameOne(m, r).value, renames[i].old_)
      {
        if i < |front| {
          assert renames[i] == front[i];
        }
      }
    }
  }

  // -------------------------------------------------------------- one run

  datatype Input = Input(land: seq<Key>, sea: seq<Key>, keep: set<Key>, renames: seq<Rename>)

  function Keys(s: seq<Key>): set<Key> {
    set k | k in s
  }

  function Current(inp: Input): set<Key> {
    Keys(inp.land) + Keys(inp.sea)
  }

  /** The keys without an id: land first, then sea, each in sorted order. */
  ghost predicate Newcomers(m: Lock, inp: Input, q: seq<Key>) {
    exists land, sea :: q == land + sea && InOrder(Keys(inp.land) - m.ids.Keys, land) &&
                        InOrder(Keys(inp.sea) - Keys(inp.land) - m.ids.Keys, sea)
  }

  /** One above every locked id, and at least the least allowed id. */
  ghost predicate IsNext(ids: map<Key, int>, n: int) {
    n >= MIN_NODE_ID && (forall k :: k in ids ==>
      ids[k] < n) && (n == MIN_NODE_ID || exists k :: k in ids && ids[k] == n - 1)
  }

  /** The ids after the newcomers q received n, n + 1, .... */
  ghost predicate Filled(ids: map<Key, int>, q: seq<Key>, n: int, filled: map<Key, int>) {
    filled.Keys == ids.Keys + Keys(q) && (forall k :: k in ids ==> filled[k] == ids[k]) &&
    forall i :: 0 <= i < |q| ==> q[i] in filled && filled[q[i]] == n + i
  }

  ghost predicate Assigns(m: Lock, inp: Input, l: Lock, newIds: seq<int>) {
    l.previous == m.previous &&
    exists q, n :: Newcomers(m, inp, q) && IsNext(m.ids, n) && Filled(m.ids, q, n, l.ids) &&
                   |newIds| == |q| && forall i :: 0 <= i < |q| ==> newIds[i] == n + i
  }

  /** A successful run: the lock loads, the renames apply, every locked key is current or may stay, and every chain
      ends up with a locked key. */
  ghost predicate Success(l: Lock, inp: Input, l': Lock, newIds: seq<int>) {
    LockOk(l) && RenameAll(l, inp.renames).Some? &&
    var m := RenameAll(l, inp.renames).value;
    m.ids.Keys <= Current(inp) + inp.keep && Assigns(m, inp, l', newIds) && l'.previous.Keys <= l'.ids.Keys
  }

  /** The text of a lock: entries by ascending id, chains in the same order. */
  datatype Text = Text(ids: seq<(Key, int)>, previous: seq<(Key, seq<Key>)>)

  function ById(e: (Key, int)): (int, int) {
    (e.1, 0)
  }

  function ByOwner(ids: map<Key, int>): ((Key, seq<Key>)) -> (int, int) {
    (e: (Key, seq<Key>)) => if e.0 in ids then (ids[e.0], 0) else (0, 0)
  }

  ghost predicate IsCanonical(l: Lock, t: Text) {
    StrictBy(ById, t.ids) && (forall e :: e in t.ids <==> e.0 in l.ids && l.ids[e.0] == e.1) &&
    StrictBy(ByOwner(l.ids), t.previous) && (forall e :: e in t.previous <==>
      e.0 in l.previous && l.previous[e.0] == e.1)
  }

  /** A lock has one text. */
  lemma CanonicalUnique(l: Lock, t: Text, u: Text)
    requires IsCanonical(l, t) && IsCanonical(l, u)
    ensures t == u
  {
    ListingUnique(ById, t.ids, u.ids);
    ListingUnique(ByOwner(l.ids), t.previous, u.previous);
  }

  /** Different locks have different texts. */
  lemma CanonicalFaithful(l: Lock, m: Lock, t: Text)
    requires IsCanonical(l, t) && IsCanonical(m, t)
    ensures l == m
  {
    forall k
      ensures k in l.ids <==> k in m.ids
      ensures k in l.ids && k in m.ids ==> l.ids[k] == m.ids[k]
      ensures k in l.previous <==> k in m.previous
      ensures k in l.previous && k in m.previous ==> l.previous[k] == m.previous[k]
    {
      if k in l.ids {
        assert (k, l.ids[k]) in t.ids;
      }
      if k in m.ids {
        assert (k, m.ids[k]) in t.ids;
      }
      if k in l.previous {
        assert (k, l.previous[k]) in t.previous;
      }
      if k in m.previous {
        assert (k, m.previous[k]) in t.previous;
      }
    }
  }

  /** The entries of a dictionary, each key once. */
  method Items<V(!new)>(m: map<Key, V>) returns (items: seq<(Key, V)>)
    ensures forall e: (Key, V) :: e in items <==> e.0 in m && m[e.0] == e.1
    ensures forall i, j :: 0 <= i < j < |items| ==> items[i].0 != items[j].0
  {
    items := [];
    var rest := m.Keys;
    while rest != {}
      invariant rest <= m.Keys
      invariant forall e: (Key, V) :: e in items <==> e.0 in m.Keys - rest && m[e.0] == e.1
      invariant forall i, j :: 0 <= i < j < |items| ==> items[i].0 != items[j].0
      decreases rest
    {
      var k :| k in rest;
      forall i | 0 <= i < |items|
        ensures items[i].0 != k
      {
        assert items[i] in items;
      }
      items := items + [(k, m[k])];
      rest := rest - {k};
    }
  }

  method CanonicalLock(l: Lock) returns (t: Text)
    requires IdsOk(l.ids) && l.previous.Keys <= l.ids.Keys
    ensures IsCanonical(l, t)
  {
    var items := Items(l.ids);
    var chains := Items(l.previous);
    ItemsByIdDistinct(l.ids, items);
    ChainsByIdDistinct(l, chains);
    SortStrict(ById, items);
    SortMembers(ById, items);
    SortStrict(ByOwner(l.ids), chains);
    SortMembers(ByOwner(l.ids), chains);
    t := Text(SortBy(ById, items), SortBy(ByOwner(l.ids), chains));
  }

  lemma ItemsByIdDistinct(ids: map<Key, int>, items: seq<(Key, int)>)
    requires IdsOk(ids) && forall e: (Key, int) :: e in items ==> e.0 in ids && ids[e.0] == e.1
    requires forall i, j :: 0 <= i < j < |items| ==> items[i].0 != items[j].0
    ensures forall i, j :: 0 <= i < j < |items| ==> ById(items[i]) != ById(items[j])
  {
    forall i, j | 0 <= i < j < |items|
      ensures ById(items[i]) != ById(items[j])
    {
      var x, y := items[i], items[j];
      assert x in items && y in items;
    }
  }

  lemma ChainsByIdDistinct(l: Lock, chains: seq<(Key, seq<Key>)>)
    requires IdsOk(l.ids) && l.previous.Keys <= l.ids.Keys
    requires forall e: (Key, seq<Key>) :: e in chains ==> e.0 in l.previous
    requires forall i, j :: 0 <= i < j < |chains| ==> chains[i].0 != chains[j].0
    ensures forall i, j :: 0 <= i < j < |chains| ==> ByOwner(l.ids)(chains[i]) != ByOwner(l.ids)(chains[j])
  {
    forall i, j | 0 <= i < j < |chains|
      ensures ByOwner(l.ids)(chains[i]) != ByOwner(l.ids)(chains[j])
    {
      var x, y := chains[i], chains[j];
      assert x in chains && y in chains;
    }
  }

  // ---------------------------------------------------- chains without a key

  /** The key whose id rename i moves, after the renames before it. */
  ghost function Moved(l: Lock, renames: seq<Rename>, i: nat): Option<Key>
    requires i < |renames|
  {
    match RenameAll(l, renames[..i])
    case None => None
    case Some(m) => Holder(m, renames[i])
  }

  /** Whether a key holds an id after the first i renames. */
  ghost predicate LiveAt(l: Lock, renames: seq<Rename>, i: nat, k: Key)
    requires i <= |renames|
  {
    RenameAll(l, renames[..i]).Some? && k in RenameAll(l, renames[..i]).value.ids
  }

  /** Some of the first n renames leads to k when k holds no id and moves none there, and no later one does. */
  ghost predicate Orphan(l: Lock, renames: seq<Rename>, n: nat, k: Key)
    requires n <= |renames|
  {
    exists j :: 0 <= j < n && renames[j].new_ == k && !LiveAt(l, renames, j, k) &&
                forall i :: j <= i < n && renames[i].new_ == k ==> Moved(l, renames, i).None?
  }

  /** The chains without a locked key after some renames are exactly the orphans. */
  lemma {:induction false} OrphansExact(l: Lock, renames: seq<Rename>, n: nat)
    requires l.previous.Keys <= l.ids.Keys && n <= |renames| && RenameAll(l, renames[..n]).Some?
    ensures var m := RenameAll(l, renames[..n]).value;
            forall k :: k in m.previous && k !in m.ids <==> Orphan(l, renames, n, k)
  {
    if n > 0 {
      assert renames[..n][..n - 1] == renames[..n - 1];
      Prefix(l, renames[..n], n - 1);
      OrphansExact(l, renames, n - 1);
      var m, now := RenameAll(l, renames[..n - 1]).value, RenameAll(l, renames[..n]).value;
      forall k: Key ensures k in now.previous && k !in now.ids <==> Orphan(l, renames, n, k)
      {
        OrphanStep(l, renames, n - 1, m, k);
      }
    }
  }

  lemma HolderLives(m: Lock, r: Rename)
    ensures Holder(m, r).Some? ==> Holder(m, r).value in m.ids
  {
  }

  lemma OrphanStep(l: Lock, renames: seq<Rename>, i: nat, m: Lock, k: Key)
    requires i < |renames| && RenameAll(l, renames[..i]) == Some(m) && RenameOne(m, renames[i]).Some?
    requires k in m.previous && k !in m.ids <==> Orphan(l, renames, i, k)
    ensures var n := RenameOne(m, renames[i]).value;
            k in n.previous && k !in n.ids <==> Orphan(l, renames, i + 1, k)
  {
    hide Without, RenameAll, Holder;
    var r := renames[i];
    HolderLives(m, r);
    assert Moved(l, renames, i) == Holder(m, r);
    assert LiveAt(l, renames, i, k) <==> k in m.ids;
    if r.new_ != k || Holder(m, r).None? {
      if Orphan(l, renames, i, k) {
        var j :| 0 <= j < i && renames[j].new_ == k && !LiveAt(l, renames, j, k) &&
                 forall q :: j <= q < i && renames[q].new_ == k ==> Moved(l, renames, q).None?;
        assert Orphan(l, renames, i + 1, k);
      }
      if Orphan(l, renames, i + 1, k) {
        var j :| 0 <= j < i + 1 && renames[j].new_ == k && !LiveAt(l, renames, j, k) &&
                 forall q :: j <= q < i + 1 && renames[q].new_ == k ==> Moved(l, renames, q).None?;
        assert j < i ==> Orphan(l, renames, i, k);
      }
    }
  }

  // --------------------------------------------------------------- the run

  /** The lock file on disk. */
  datatype Disk = Disk(lock: Lock, text: Text)

  datatype Result =
    | Assigned(ids: map<Key, int>, newIds: seq<int>, lock: Lock, text: Text, changed: bool)
    | LockInvalid
    | Collision
    | KeysRemoved(keys: seq<Key>)
    | ChainWithoutKey

  function Stored(disk: Option<Disk>): Lock {
    if disk.Some? then disk.value.lock else EMPTY
  }

  /** The least unused id above all locked ones. */
  method NextId(ids: map<Key, int>) returns (n: int)
    ensures IsNext(ids, n)
  {
    var high := MIN_NODE_ID - 1;
    var rest := ids.Keys;
    while rest != {}
      invariant rest <= ids.Keys && high >= MIN_NODE_ID - 1
      invariant forall k :: k in ids.Keys - rest ==> ids[k] <= high
      invariant high == MIN_NODE_ID - 1 || exists k :: k in ids && ids[k] == high
      decreases rest
    {
      var k :| k in rest;
      if ids[k] > high {
        high := ids[k];
      }
      rest := rest - {k};
    }
    n := high + 1;
  }

  /** Hands out consecutive ids to a list of keys. */
  method HandOut(ids0: map<Key, int>, n: int, q: seq<Key>) returns (ids: map<Key, int>, newIds: seq<int>)
    requires forall i :: 0 <= i < |q| ==> q[i] !in ids0
    requires forall i, j :: 0 <= i < j < |q| ==> q[i] != q[j]
    ensures Filled(ids0, q, n, ids) && |newIds| == |q| && forall i :: 0 <= i < |q| ==> newIds[i] == n + i
  {
    hide Filled;
    ids, newIds := ids0, [];
    FilledNone(ids0, n);
    assert q[..0] == [];
    for i := 0 to |q|
      invariant Filled(ids0, q[..i], n, ids) && |newIds| == i && forall j :: 0 <= j < i ==> newIds[j] == n + j
    {
      FilledOne(ids0, q[..i], n, ids, q[i]);
      assert q[..i + 1] == q[..i] + [q[i]];
      ids := ids[q[i] := n + i];
      newIds := newIds + [n + i];
    }
    assert q[..|q|] == q;
  }

  lemma FilledNone(ids: map<Key, int>, n: int)
    ensures Filled(ids, [], n, ids)
  {
  }

  lemma FilledOne(ids: map<Key, int>, q: seq<Key>, n: int, filled: map<Key, int>, k: Key)
    requires Filled(ids, q, n, filled) && k !in ids && forall j :: 0 <= j < |q| ==> q[j] != k
    ensures Filled(ids, q + [k], n, filled[k := n + |q|])
  {
    assert Keys(q + [k]) == Keys(q) + {k};
  }

  lemma FilledTwice(ids: map<Key, int>, p: seq<Key>, q: seq<Key>, n: int, mid: map<Key, int>, filled: map<Key, int>)
    requires Filled(ids, p, n, mid) && Filled(mid, q, n + |p|, filled)
    ensures Filled(ids, p + q, n, filled)
  {
    assert Keys(p + q) == Keys(p) + Keys(q);
    forall i | 0 <= i < |p + q|
      ensures (p + q)[i] in filled && filled[(p + q)[i]] == n + i
    {
      if i < |p| {
        assert p[i] in mid;
      } else {
        assert (p + q)[i] == q[i - |p|];
      }
    }
  }

  /** The ids after the newcomers: every current key has one, every locked key keeps its own. */
  method GiveIds(m: Lock, inp: Input) returns (ids: map<Key, int>, newIds: seq<int>)
    ensures Assigns(m, inp, Lock(ids, m.previous), newIds)
    ensures ids.Keys == m.ids.Keys + Current(inp)
  {
    var land := SortKeys(Keys(inp.land) - m.ids.Keys);
    var sea := SortKeys(Keys(inp.sea) - Keys(inp.land) - m.ids.Keys);
    var n := NextId(m.ids);
    InOrderAbsent(Keys(inp.land) - m.ids.Keys, land);
    InOrderAbsent(Keys(inp.sea) - Keys(inp.land) - m.ids.Keys, sea);
    var mid, first := HandOut(m.ids, n, land);
    var second;
    ids, second := HandOut(mid, n + |land|, sea);
    newIds := first + second;
    FilledTwice(m.ids, land, sea, n, mid, ids);
    assert Newcomers(m, inp, land + sea);
    assert Keys(land + sea) == Keys(land) + Keys(sea);
  }

  lemma InOrderAbsent(s: set<Key>, q: seq<Key>)
    requires InOrder(s, q)
    ensures forall i :: 0 <= i < |q| ==> q[i] in s
    ensures Keys(q) == s
  {
    forall i | 0 <= i < |q|
      ensures q[i] in s
    {
      assert q[i] in q;
    }
  }

  /** The whole command. It succeeds exactly when the stored lock is valid, no rename collides, no locked key has
      vanished, and every chain ends up with a locked key. */
  method AssignIds(disk: Option<Disk>, inp: Input) returns (r: Result)
    ensures r.LockInvalid? <==> !LockOk(Stored(disk))
    ensures r.Collision? <==> (LockOk(Stored(disk)) && RenameAll(Stored(disk), inp.renames).None?)
    ensures r.KeysRemoved? <==>
              (LockOk(Stored(disk)) && RenameAll(Stored(disk), inp.renames).Some? &&
               !(RenameAll(Stored(disk), inp.renames).value.ids.Keys <= Current(inp) + inp.keep))
    ensures r.KeysRemoved? ==>
              InOrder(RenameAll(Stored(disk), inp.renames).value.ids.Keys - Current(inp) - inp.keep, r.keys)
    ensures r.ChainWithoutKey? <==>
              (LockOk(Stored(disk)) && RenameAll(Stored(disk), inp.renames).Some? &&
               RenameAll(Stored(disk), inp.renames).value.ids.Keys <= Current(inp) + inp.keep &&
               exists k :: k !in Current(inp) && Orphan(Stored(disk), inp.renames, |inp.renames|, k))
    ensures r.Assigned? <==> exists l, newIds :: Success(Stored(disk), inp, l, newIds)
    ensures r.Assigned? ==> Success(Stored(disk), inp, r.lock, r.newIds) && IsCanonical(r.lock, r.text)
    ensures r.Assigned? ==> r.ids.Keys == Current(inp) && forall k :: k in r.ids ==>
              k in r.lock.ids && r.ids[k] == r.lock.ids[k]
    ensures r.Assigned? ==> r.changed == (disk.None? || r.text != disk.value.text)
  {
    hide Assigns, RenameAll, IsCanonical, Orphan, LockOk;
    if !LockOk(Stored(disk)) {
      return LockInvalid;
    }
    var state := new LockState(Stored(disk));
    assert state.Value() == Stored(disk);
    var ok := state.ApplyRenames(inp.renames);
    if !ok {
      return Collision;
    }
    var m := Lock(state.ids, state.previous);
    OkParts(Stored(disk));
    RenameAllKeeps(Stored(disk), inp.renames);
    var gone := m.ids.Keys - Current(inp) - inp.keep;
    if gone != {} {
      var keys := SortKeys(gone);
      assert !(m.ids.Keys <= Current(inp) + inp.keep);
      return KeysRemoved(keys);
    }
    assert forall k :: k in m.ids.Keys && k !in Current(inp) + inp.keep ==> k in gone;
    var ids, newIds := GiveIds(m, inp);
    assert inp.renames[..|inp.renames|] == inp.renames;
    OrphansExact(Stored(disk), inp.renames, |inp.renames|);
    if !(m.previous.Keys <= ids.Keys) {
      SuccessNeedsOwners(Stored(disk), inp, m);
      return ChainWithoutKey;
    }
    var lock := Lock(ids, m.previous);
    AssignedIdsOk(m, inp, lock, newIds);
    var text := CanonicalLock(lock);
    r := Assigned(map k | k in Current(inp) :: ids[k], newIds, lock, text, disk.None? || text != disk.value.text);
    assert Success(Stored(disk), inp, r.lock, r.newIds);
  }

  lemma OkParts(l: Lock)
    requires LockOk(l)
    ensures IdsOk(l.ids) && NoEmptyChain(l) && l.previous.Keys <= l.ids.Keys
  {
  }

  lemma AssignedKeys(m: Lock, inp: Input, l: Lock, newIds: seq<int>)
    requires Assigns(m, inp, l, newIds)
    ensures l.ids.Keys == m.ids.Keys + Current(inp) && l.previous == m.previous
  {
    var q, n :| Newcomers(m, inp, q) && IsNext(m.ids, n) && Filled(m.ids, q, n, l.ids);
    var land, sea :| q == land + sea && InOrder(Keys(inp.land) - m.ids.Keys, land) &&
                     InOrder(Keys(inp.sea) - Keys(inp.land) - m.ids.Keys, sea);
    InOrderAbsent(Keys(inp.land) - m.ids.Keys, land);
    InOrderAbsent(Keys(inp.sea) - Keys(inp.land) - m.ids.Keys, sea);
    assert Keys(q) == Keys(land) + Keys(sea);
  }

  lemma SuccessNeedsOwners(l: Lock, inp: Input, m: Lock)
    requires RenameAll(l, inp.renames) == Some(m) && !(m.previous.Keys <= m.ids.Keys + Current(inp))
    ensures !exists l', newIds :: Success(l, inp, l', newIds)
  {
    forall l', newIds
      ensures !Success(l, inp, l', newIds)
    {
      if Success(l, inp, l', newIds) {
        AssignedKeys(m, inp, l', newIds);
      }
    }
  }

  /** New ids exceed every locked id and each other's predecessors, so ids stay unique and in range. */
  lemma AssignedIdsOk(m: Lock, inp: Input, l: Lock, newIds: seq<int>)
    requires IdsOk(m.ids) && Assigns(m, inp, l, newIds)
    ensures IdsOk(l.ids)
    ensures forall i, k :: 0 <= i < |newIds| && k in m.ids ==> newIds[i] > m.ids[k]
    ensures forall k :: k in m.ids ==> k in l.ids && l.ids[k] == m.ids[k]
    ensures forall k :: k in l.ids && k !in m.ids ==> l.ids[k] in newIds
  {
    var q, n :| Newcomers(m, inp, q) && IsNext(m.ids, n) && Filled(m.ids, q, n, l.ids) &&
                |newIds| == |q| && forall i :: 0 <= i < |q| ==> newIds[i] == n + i;
    FilledIdsOk(m.ids, q, n, l.ids);
    forall k | k in l.ids && k !in m.ids
      ensures l.ids[k] in newIds
    {
      var i := FilledAt(m.ids, q, n, l.ids, k);
      assert newIds[i] == l.ids[k];
    }
  }

  lemma FilledAt(ids: map<Key, int>, q: seq<Key>, n: int, filled: map<Key, int>, k: Key) returns (i: nat)
    requires Filled(ids, q, n, filled) && k in filled && k !in ids
    ensures i < |q| && q[i] == k && filled[k] == n + i
  {
    assert k in Keys(q);
    i :| 0 <= i < |q| && q[i] == k;
  }

  lemma FilledIdsOk(ids: map<Key, int>, q: seq<Key>, n: int, filled: map<Key, int>)
    requires IdsOk(ids) && IsNext(ids, n) && Filled(ids, q, n, filled)
    ensures IdsOk(filled)
  {
    forall j | j in filled
      ensures filled[j] >= MIN_NODE_ID
    {
      if j !in ids {
        var i := FilledAt(ids, q, n, filled, j);
      }
    }
    forall j, k | j in filled && k in filled && j != k
      ensures filled[j] != filled[k]
    {
      if j !in ids {
        var i := FilledAt(ids, q, n, filled, j);
      }
      if k !in ids {
        var i := FilledAt(ids, q, n, filled, k);
      }
    }
  }

  // -------------------------------------------------------------- many runs

  /** One successful run: no id is lost or renumbered, lineages only grow, ids stay unique and in range, and every id
      handed out exceeds every id locked before. */
  lemma RunSafe(l: Lock, inp: Input, l': Lock, newIds: seq<int>)
    requires Success(l, inp, l', newIds)
    ensures IdsOk(l'.ids) && NoEmptyChain(l') && Carries(l, l')
    ensures l.ids.Values <= l'.ids.Values
    ensures forall i, k :: 0 <= i < |newIds| && k in l.ids ==> newIds[i] > l.ids[k]
    ensures forall k :: k in l'.ids ==> l'.ids[k] in l.ids.Values || l'.ids[k] in newIds
  {
    hide Assigns, Lineage;
    var m := RenameAll(l, inp.renames).value;
    OkParts(l);
    RenameAllKeeps(l, inp.renames);
    AssignedIdsOk(m, inp, l', newIds);
    AssignedKeys(m, inp, l', newIds);
    forall k | k in m.ids
      ensures exists k' :: Heir(m, k, l', k')
    {
      SameLineage(m, l', k);
      assert Heir(m, k, l', k);
    }
    CarriesTrans(l, m, l');
    CarriesValues(l, l');
    forall i, k | 0 <= i < |newIds| && k in l.ids
      ensures newIds[i] > l.ids[k]
    {
      var j :| Heir(l, k, m, j);
    }
    forall k | k in l'.ids
      ensures l'.ids[k] in l.ids.Values || l'.ids[k] in newIds
    {
      if k in m.ids {
        assert m.ids[k] in m.ids.Values;
      }
    }
  }

  lemma SameLineage(m: Lock, l: Lock, k: Key)
    requires m.previous == l.previous
    ensures Lineage(m, k) == Lineage(l, k)
  {
  }

  lemma CarriesValues(l: Lock, m: Lock)
    requires Carries(l, m)
    ensures l.ids.Values <= m.ids.Values
  {
    forall v | v in l.ids.Values
      ensures v in m.ids.Values
    {
      var k :| k in l.ids && l.ids[k] == v;
      var j :| Heir(l, k, m, j);
    }
  }

  /** A history of successful runs, each starting from the lock the one before it wrote. */
  ghost predicate History(locks: seq<Lock>, inputs: seq<Input>, given: seq<seq<int>>) {
    |locks| == |inputs| + 1 == |given| + 1 &&
    forall i :: 0 <= i < |inputs| ==> Success(locks[i], inputs[i], locks[i + 1], given[i])
  }

  /** Over any history the set of locked ids never shrinks, no id is renumbered and every lineage only grows. */
  lemma {:induction false} HistoryCarries(locks: seq<Lock>, inputs: seq<Input>, given: seq<seq<int>>, i: nat, j: nat)
    requires History(locks, inputs, given) && i <= j < |locks|
    ensures Carries(locks[i], locks[j]) && locks[i].ids.Values <= locks[j].ids.Values
    decreases j - i
  {
    hide Success, Carries;
    if i == j {
      CarriesSelf(locks[i]);
    } else {
      HistoryCarries(locks, inputs, given, i, j - 1);
      RunSafe(locks[j - 1], inputs[j - 1], locks[j], given[j - 1]);
      CarriesTrans(locks[i], locks[j - 1], locks[j]);
    }
  }

  /** An id handed out in a run exceeds every id any earlier lock of the history held, retired ones included: no id is
      ever handed out twice. */
  lemma HistoryFresh(locks: seq<Lock>, inputs: seq<Input>, given: seq<seq<int>>, i: nat, j: nat, n: nat, k: Key)
    requires History(locks, inputs, given) && i <= j < |inputs| && n < |given[j]| && k in locks[i].ids
    ensures given[j][n] > locks[i].ids[k]
  {
    HistoryCarries(locks, inputs, given, i, j);
    RunSafe(locks[j], inputs[j], locks[j + 1], given[j]);
    var k' :| Heir(locks[i], k, locks[j], k');
  }

  /** No id ever passes to another node: whoever holds an id later has the earlier holder in its lineage. */
  lemma HistoryLineage(locks: seq<Lock>, inputs: seq<Input>, given: seq<seq<int>>, i: nat, j: nat, k: Key, k': Key)
    requires History(locks, inputs, given) && i <= j < |locks| && IdsOk(locks[j].ids)
    requires k in locks[i].ids && k' in locks[j].ids && locks[i].ids[k] == locks[j].ids[k']
    ensures Lineage(locks[i], k) <= Lineage(locks[j], k') && k in Lineage(locks[j], k')
  {
    HistoryCarries(locks, inputs, given, i, j);
    var h :| Heir(locks[i], k, locks[j], h);
    assert h == k';
    LineageHas(locks[i], k, k);
  }

  // -------------------------------------------------------------- running again

  /** A key in a chain stays in that chain unless the chain's owner is itself superseded. */
  lemma {:induction false} ChainStays(l: Lock, renames: seq<Rename>, i: nat, k: Key, x: Key)
    requires IdsOk(l.ids) && NoEmptyChain(l) && i <= |renames| && RenameAll(l, renames).Some?
    requires RenameAll(l, renames[..i]).Some? && x in Chain(RenameAll(l, renames[..i]).value.previous, k)
    ensures x in Chain(RenameAll(l, renames).value.previous, k) || Superseded(RenameAll(l, renames).value, k)
    decreases |renames|
  {
    if i < |renames| {
      var front, r := renames[..|renames| - 1], renames[|renames| - 1];
      assert front[..i] == renames[..i];
      RenameAllKeeps(l, front);
      ChainStays(l, front, i, k, x);
      var m := RenameAll(l, front).value;
      RenameOneKeeps(m, r);
      if x in Chain(m.previous, k) {
        match Holder(m, r)
        case Some(h) => MoveChains(m, h, r.new_);
        case None => NoteChains(m, r);
      }
    } else {
      assert renames[..i] == renames;
    }
  }

  /** After a run with a valid result, every source sits in the chain of its target, if the target is locked. */
  lemma SourceNoted(l: Lock, inp: Input, l': Lock, newIds: seq<int>, i: nat)
    requires Success(l, inp, l', newIds) && LockOk(l') && i < |inp.renames|
    ensures inp.renames[i].old_ !in l'.ids && Superseded(l', inp.renames[i].old_)
    ensures inp.renames[i].new_ in l'.ids ==> inp.renames[i].old_ in Chain(l'.previous, inp.renames[i].new_)
  {
    hide Success, Assigns, RenameOne, LockOk, IdsOk, Carries, Chain;
    var r := inp.renames[i];
    RunShape(l, inp, l', newIds);
    var m := RenameAll(l, inp.renames).value;
    OkParts(l);
    RenameAllKeeps(l, inp.renames);
    SameSuperseded(m, l', r.old_);
    SupersededDead(l', r.old_);
    Prefix(l, inp.renames, i);
    RenameAllKeeps(l, inp.renames[..i]);
    StepTo(l, inp.renames, i, RenameAll(l, inp.renames[..i]).value);
    RenameOneKeeps(RenameAll(l, inp.renames[..i]).value, r);
    ChainStays(l, inp.renames, i + 1, r.new_, r.old_);
    SameSuperseded(m, l', r.new_);
    if Superseded(m, r.new_) {
      SupersededDead(l', r.new_);
    }
  }

  lemma SameSuperseded(m: Lock, l: Lock, x: Key)
    requires m.previous == l.previous
    ensures Superseded(m, x) <==> Superseded(l, x)
  {
  }

  lemma Prefix(l: Lock, renames: seq<Rename>, i: nat)
    requires i <= |renames| && RenameAll(l, renames).Some?
    ensures RenameAll(l, renames[..i]).Some?
  {
    if RenameAll(l, renames[..i]).None? {
      RenameFails(l, renames, i);
    }
  }

  lemma SupersededDead(l: Lock, x: Key)
    requires LockOk(l) && Superseded(l, x)
    ensures x !in l.ids && exists k :: k in l.ids && x in Chain(l.previous, k)
  {
    var k :| x in Chain(l.previous, k);
  }

  /** On the lock just written, the renames whose targets are locked change nothing. */
  lemma {:induction false} RenamesIdle(l: Lock, renames: seq<Rename>)
    requires forall i :: 0 <= i < |renames| ==>
               renames[i].old_ !in l.ids && renames[i].new_ in l.ids &&
                 renames[i].old_ in Chain(l.previous, renames[i].new_)
    ensures RenameAll(l, renames) == Some(l)
  {
    if renames != [] {
      RenamesIdle(l, renames[..|renames| - 1]);
    }
  }

  lemma NothingToAssign(l: Lock, inp: Input)
    requires IdsOk(l.ids) && Current(inp) <= l.ids.Keys
    ensures Assigns(l, inp, l, [])
  {
    hide IdsOk, IsNext;
    var q: seq<Key> := [];
    assert InOrder(Keys(inp.land) - l.ids.Keys, q) && InOrder(Keys(inp.sea) - Keys(inp.land) - l.ids.Keys, q);
    assert q + q == q;
    assert Newcomers(l, inp, q);
    NextExists(l.ids);
    var n :| IsNext(l.ids, n);
    FilledNone(l.ids, n);
  }

  lemma {:induction false} NextExists(ids: map<Key, int>)
    ensures exists n :: IsNext(ids, n)
    decreases ids.Keys
  {
    if ids.Keys == {} {
      assert IsNext(ids, MIN_NODE_ID);
    } else {
      var k :| k in ids;
      var rest := ids - {k};
      NextExists(rest);
      var n :| IsNext(rest, n);
      assert forall j :: j in ids ==> j == k || (j in rest && rest[j] == ids[j]);
      assert forall j :: j in rest ==> j in ids;
      if ids[k] < n {
        assert IsNext(ids, n);
      } else {
        assert IsNext(ids, ids[k] + 1);
      }
    }
  }

  lemma {:induction false} SupersededStays(l: Lock, renames: seq<Rename>, i: nat, x: Key)
    requires IdsOk(l.ids) && NoEmptyChain(l) && i <= |renames| && RenameAll(l, renames).Some?
    requires RenameAll(l, renames[..i]).Some? && Superseded(RenameAll(l, renames[..i]).value, x)
    ensures Superseded(RenameAll(l, renames).value, x)
    decreases |renames|
  {
    if i < |renames| {
      var front := renames[..|renames| - 1];
      assert front[..i] == renames[..i];
      RenameAllKeeps(l, front);
      SupersededStays(l, front, i, x);
      RenameOneKeeps(RenameAll(l, front).value, renames[|renames| - 1]);
    } else {
      assert renames[..i] == renames;
    }
  }

  /** A rename whose target is not locked moves an id when run again, and so supersedes a live key. */
  lemma RerunMoves(l: Lock, inp: Input, l': Lock, newIds: seq<int>)
    requires Success(l, inp, l', newIds) && LockOk(l')
    requires exists i :: 0 <= i < |inp.renames| && inp.renames[i].new_ !in l'.ids
    requires RenameAll(l', inp.renames).Some?
    ensures exists h :: h in l'.ids && Superseded(RenameAll(l', inp.renames).value, h)
  {
    var i := FirstMissing(l', inp.renames);
    forall j | 0 <= j < i
      ensures inp.renames[j].old_ !in l'.ids && inp.renames[j].old_ in Chain(l'.previous, inp.renames[j].new_)
    {
      SourceNoted(l, inp, l', newIds, j);
    }
    SourceNoted(l, inp, l', newIds, i);
    MovesAt(l', inp.renames, i);
  }

  lemma FirstMissing(l: Lock, renames: seq<Rename>) returns (i: nat)
    requires exists i :: 0 <= i < |renames| && renames[i].new_ !in l.ids
    ensures i < |renames| && renames[i].new_ !in l.ids && forall j :: 0 <= j < i ==> renames[j].new_ in l.ids
  {
    i := 0;
    while renames[i].new_ in l.ids
      invariant i < |renames| && forall j :: 0 <= j < i ==> renames[j].new_ in l.ids
      invariant exists k :: i <= k < |renames| && renames[k].new_ !in l.ids
      decreases |renames| - i
    {
      i := i + 1;
    }
  }

  lemma MovesAt(l: Lock, renames: seq<Rename>, i: nat)
    requires LockOk(l) && i < |renames| && RenameAll(l, renames).Some?
    requires forall j :: 0 <= j < i ==>
               renames[j].old_ !in l.ids && renames[j].new_ in l.ids &&
                 renames[j].old_ in Chain(l.previous, renames[j].new_)
    requires renames[i].old_ !in l.ids && renames[i].new_ !in l.ids && Superseded(l, renames[i].old_)
    ensures exists h :: h in l.ids && Superseded(RenameAll(l, renames).value, h)
  {
    hide RenameOne;
    var r := renames[i];
    OkParts(l);
    RenamesIdle(l, renames[..i]);
    var h := HolderFound(l, r);
    StepTo(l, renames, i, l);
    RenameOneKeeps(l, r);
    SupersededStays(l, renames, i + 1, h);
  }

  lemma HolderFound(l: Lock, r: Rename) returns (h: Key)
    requires LockOk(l) && r.old_ !in l.ids && r.new_ !in l.ids && Superseded(l, r.old_)
    ensures h in l.ids && Holder(l, r) == Some(h)
  {
    SupersededDead(l, r.old_);
    var k :| k in l.ids && r.old_ in Chain(l.previous, k);
    assert k in Holders(l, r.old_);
    h := Holder(l, r).value;
  }

  /** One more rename after a prefix. */
  lemma StepTo(l: Lock, renames: seq<Rename>, i: nat, m: Lock)
    requires i < |renames| && RenameAll(l, renames).Some? && RenameAll(l, renames[..i]) == Some(m)
    ensures RenameOne(m, renames[i]).Some? && RenameAll(l, renames[..i + 1]) == RenameOne(m, renames[i])
  {
    assert renames[..i + 1][..i] == renames[..i];
    if RenameOne(m, renames[i]).None? {
      RenameFails(l, renames, i + 1);
    }
  }

  /** Running again on the lock just written, with the same inputs, assigns nothing and changes nothing - exactly when
      every rename target is locked. (A target is missing when a later rename of the same run moved it on.) */
  lemma RerunIdle(l: Lock, inp: Input, l': Lock, newIds: seq<int>)
    requires Success(l, inp, l', newIds) && LockOk(l')
    ensures Success(l', inp, l', []) <==> forall i :: 0 <= i < |inp.renames| ==> inp.renames[i].new_ in l'.ids
  {
    var m := RenameAll(l, inp.renames).value;
    AssignedKeys(m, inp, l', newIds);
    forall i | 0 <= i < |inp.renames|
      ensures inp.renames[i].old_ !in l'.ids
      ensures inp.renames[i].new_ in l'.ids ==> inp.renames[i].old_ in Chain(l'.previous, inp.renames[i].new_)
    {
      SourceNoted(l, inp, l', newIds, i);
    }
    if forall i :: 0 <= i < |inp.renames| ==> inp.renames[i].new_ in l'.ids {
      RenamesIdle(l', inp.renames);
      NothingToAssign(l', inp);
      assert l'.ids.Keys <= Current(inp) + inp.keep;
    } else {
      if Success(l', inp, l', []) {
        IdleSupersedesDead(l', inp);
      }
      if RenameAll(l', inp.renames).Some? {
        RerunMoves(l, inp, l', newIds);
      }
    }
  }

  /** When running again can be idle it is: any successful result is the same lock, nothing new, and so the same text.
      */
  lemma RerunResult(l: Lock, inp: Input, m: Lock, newIds: seq<int>, t: Text, u: Text)
    requires Success(l, inp, l, []) && Success(l, inp, m, newIds)
    requires IsCanonical(l, t) && IsCanonical(m, u)
    ensures m == l && newIds == [] && u == t
  {
    hide Assigns, IsCanonical, RenameAll, LockOk;
    var r := RenameAll(l, inp.renames).value;
    IdleCovers(r, inp, l);
    IdleAssign(r, inp, l, []);
    IdleAssign(r, inp, m, newIds);
    CanonicalUnique(l, t, u);
  }

  lemma IdleCovers(r: Lock, inp: Input, l: Lock)
    requires Assigns(r, inp, l, [])
    ensures Current(inp) <= r.ids.Keys
  {
    AssignedKeys(r, inp, l, []);
    var q, n :| Newcomers(r, inp, q) && IsNext(r.ids, n) && Filled(r.ids, q, n, l.ids) && |q| == 0;
    assert Keys(q) == {};
  }

  lemma IdleAssign(r: Lock, inp: Input, m: Lock, newIds: seq<int>)
    requires Assigns(r, inp, m, newIds) && Current(inp) <= r.ids.Keys
    ensures m == r && newIds == []
  {
    var q, n :| Newcomers(r, inp, q) && IsNext(r.ids, n) && Filled(r.ids, q, n, m.ids) && |newIds| == |q|;
    NoNewcomers(r, inp, q);
    assert Keys(q) == {} && m.ids == r.ids;
  }

  lemma NoNewcomers(r: Lock, inp: Input, q: seq<Key>)
    requires Newcomers(r, inp, q) && Current(inp) <= r.ids.Keys
    ensures q == []
  {
    var a, b :| q == a + b && InOrder(Keys(inp.land) - r.ids.Keys, a) &&
      InOrder(Keys(inp.sea) - Keys(inp.land) - r.ids.Keys, b);
    assert Keys(inp.land) - r.ids.Keys == {} && Keys(inp.sea) - Keys(inp.land) - r.ids.Keys == {};
    EmptyOrder(a);
    EmptyOrder(b);
  }

  lemma EmptyOrder(q: seq<Key>)
    requires InOrder({}, q)
    ensures q == []
  {
    assert forall k :: k in multiset(q) <==> k in q;
    assert multiset(q) == multiset{};
    assert |multiset(q)| == |q|;
  }

  /** A run that reproduces its lock supersedes no live key. */
  lemma IdleSupersedesDead(l: Lock, inp: Input)
    requires Success(l, inp, l, [])
    ensures RenameAll(l, inp.renames).Some?
    ensures forall h :: Superseded(RenameAll(l, inp.renames).value, h) ==> h !in l.ids
  {
    AssignedKeys(RenameAll(l, inp.renames).value, inp, l, []);
    forall h | Superseded(RenameAll(l, inp.renames).value, h)
      ensures h !in l.ids
    {
      assert Superseded(l, h);
      SupersededDead(l, h);
    }
  }

  // ------------------------------------------------- which locks load again

  /** A key that was ever given up: recorded already, or the source of one of the first n renames, or left by one. */
  ghost predicate Former(l: Lock, renames: seq<Rename>, n: nat, x: Key)
    requires n <= |renames|
  {
    Superseded(l, x) || exists j :: 0 <= j < n && (renames[j].old_ == x || Moved(l, renames, j) == Some(x))
  }

  /** The keys the renames lead to. */
  function Targets(renames: seq<Rename>): set<Key> {
    set i | 0 <= i < |renames| :: renames[i].new_
  }

  ghost predicate Distinct(s: seq<Key>) {
    forall i, j :: 0 <= i < j < |s| ==> s[i] != s[j]
  }

  ghost predicate NoRepeats(previous: map<Key, seq<Key>>) {
    forall k :: k in previous ==> Distinct(previous[k])
  }

  /** Superseded keys hold no id. */
  ghost predicate Dead(m: Lock) {
    forall x :: Superseded(m, x) ==> x !in m.ids
  }

  /** Live keys that are no rename target have never been given up. */
  ghost predicate Settled(m: Lock, targets: set<Key>) {
    forall x :: x in m.ids && x !in targets ==> !Superseded(m, x)
  }

  /** The recorded keys after some renames are exactly the former keys. */
  lemma {:induction false} FormerExact(l: Lock, renames: seq<Rename>, n: nat)
    requires IdsOk(l.ids) && NoEmptyChain(l) && n <= |renames| && RenameAll(l, renames[..n]).Some?
    ensures forall x :: Superseded(RenameAll(l, renames[..n]).value, x) <==> Former(l, renames, n, x)
  {
    hide IdsOk, Superseded, Holder, RenameOne;
    if n > 0 {
      assert renames[..n][..n - 1] == renames[..n - 1];
      Prefix(l, renames[..n], n - 1);
      FormerExact(l, renames, n - 1);
      RenameAllKeeps(l, renames[..n - 1]);
      var m := RenameAll(l, renames[..n - 1]).value;
      RenameOneKeeps(m, renames[n - 1]);
      assert Moved(l, renames, n - 1) == Holder(m, renames[n - 1]);
    }
  }

  /** A key given up stays live only if a rename leads to it. */
  lemma SettledStep(m: Lock, r: Rename, targets: set<Key>)
    requires IdsOk(m.ids) && NoEmptyChain(m) && RenameOne(m, r).Some? && r.new_ in targets && Settled(m, targets)
    ensures Settled(RenameOne(m, r).value, targets)
  {
    hide Superseded, IdsOk;
    RenameOneKeeps(m, r);
  }

  lemma {:induction false} SettledAll(l: Lock, renames: seq<Rename>, n: nat)
    requires LockOk(l) && n <= |renames| && RenameAll(l, renames[..n]).Some?
    ensures Settled(RenameAll(l, renames[..n]).value, Targets(renames))
  {
    hide RenameOne, IdsOk;
    OkParts(l);
    if n == 0 {
      forall x | Superseded(l, x) ensures x !in l.ids {
        SupersededDead(l, x);
      }
    } else {
      assert renames[..n][..n - 1] == renames[..n - 1];
      Prefix(l, renames[..n], n - 1);
      SettledAll(l, renames, n - 1);
      RenameAllKeeps(l, renames[..n - 1]);
      SettledStep(RenameAll(l, renames[..n - 1]).value, renames[n - 1], Targets(renames));
    }
  }

  lemma {:induction false} WithoutNothing(chain: seq<Key>)
    ensures Without(chain, []) == chain
  {
    if chain != [] {
      WithoutNothing(chain[..|chain| - 1]);
      assert chain == chain[..|chain| - 1] + [chain[|chain| - 1]];
    }
  }

  lemma ChainNoRepeats(previous: map<Key, seq<Key>>, k: Key)
    requires NoRepeats(previous)
    ensures Distinct(Chain(previous, k))
  {
  }

  lemma {:induction false} WithoutDistinct(chain: seq<Key>, known: seq<Key>)
    requires Distinct(chain)
    ensures Distinct(Without(chain, known))
  {
    if chain != [] {
      var front, last := chain[..|chain| - 1], chain[|chain| - 1];
      WithoutDistinct(front, known);
      WithoutExact(front, known, last);
      assert last !in front;
    }
  }

  lemma JoinDistinct(own: seq<Key>, chain: seq<Key>)
    requires Distinct(own) && Distinct(chain)
    ensures Distinct(own + Without(chain, own))
  {
    WithoutDistinct(chain, own);
    var more := Without(chain, own);
    forall i, j | 0 <= i < |own| && 0 <= j < |more| ensures own[i] != more[j] {
      WithoutExact(chain, own, more[j]);
    }
  }

  /** Moving a key that is not in its own chain repeats nothing. */
  lemma MoveNoRepeats(m: Lock, h: Key, new_: Key)
    requires h in m.ids && new_ !in m.ids && NoRepeats(m.previous) && h !in Chain(m.previous, h)
    ensures NoRepeats(MoveKey(m, h, new_).previous)
  {
    hide Without;
    ChainNoRepeats(m.previous, h);
    ChainNoRepeats(m.previous - {h}, new_);
    JoinDistinct(Chain(m.previous - {h}, new_), Chain(m.previous, h) + [h]);
    var p := MoveKey(m, h, new_).previous;
    forall k | k in p ensures Distinct(p[k]) {
      assert k != new_ ==> k in m.previous && p[k] == m.previous[k];
    }
  }

  /** While no rename target is a former key, chains repeat nothing. */
  lemma {:induction false} ChainsStayClean(l: Lock, renames: seq<Rename>, n: nat)
    requires LockOk(l) && n <= |renames| && RenameAll(l, renames).Some?
    requires forall x :: x in Targets(renames) ==> !Superseded(RenameAll(l, renames).value, x)
    ensures RenameAll(l, renames[..n]).Some? && NoRepeats(RenameAll(l, renames[..n]).value.previous)
  {
    hide IdsOk, LockOk, Superseded, MoveKey, NoteKey;
    Prefix(l, renames, n);
    OkParts(l);
    if n == 0 {
      LoadedNoRepeats(l);
    } else {
      ChainsStayClean(l, renames, n - 1);
      var m, r := RenameAll(l, renames[..n - 1]).value, renames[n - 1];
      RenameAllKeeps(l, renames[..n - 1]);
      StepTo(l, renames, n - 1, m);
      SettledAll(l, renames, n - 1);
      match Holder(m, r)
      case Some(h) =>
        if Superseded(m, h) {
          SupersededStays(l, renames, n - 1, h);
        }
        NotInOwnChain(m, h);
        MoveNoRepeats(m, h, r.new_);
      case None =>
        NoteNoRepeats(m, r);
    }
  }

  lemma LoadedNoRepeats(l: Lock)
    requires LockOk(l)
    ensures NoRepeats(l.previous)
  {
  }

  lemma NotInOwnChain(m: Lock, h: Key)
    requires !Superseded(m, h)
    ensures h !in Chain(m.previous, h)
  {
  }

  lemma NoteNoRepeats(m: Lock, r: Rename)
    requires NoRepeats(m.previous)
    ensures NoRepeats(NoteKey(m, r).previous)
  {
    ChainNoRepeats(m.previous, r.new_);
  }

  /** The lock a run writes loads again exactly when no current key and no rename target is a former key: recorded in
      the stored lock, a rename source, or a key some rename of the run moves an id away from. Every target is to hold
      an id afterwards, as it does when targets are current keys. */
  lemma RunLoads(l: Lock, inp: Input, l': Lock, newIds: seq<int>)
    requires Success(l, inp, l', newIds) && Targets(inp.renames) <= l'.ids.Keys
    ensures LockOk(l') <==>
              forall x :: x in Current(inp) + Targets(inp.renames) ==> !Former(l, inp.renames, |inp.renames|, x)
  {
    hide Success, Assigns, Former, LockOk, IdsOk, Superseded, Settled, NoRepeats;
    RunShape(l, inp, l', newIds);
    OkParts(l);
    RunSafe(l, inp, l', newIds);
    assert inp.renames[..|inp.renames|] == inp.renames;
    var m := RenameAll(l, inp.renames).value;
    FormerExact(l, inp.renames, |inp.renames|);
    forall x ensures Superseded(l', x) <==> Superseded(m, x) {
      SameSuperseded(m, l', x);
    }
    if LockOk(l') {
      forall x | x in Current(inp) + Targets(inp.renames) ensures !Superseded(m, x) {
        if Superseded(l', x) {
          SupersededDead(l', x);
        }
      }
    }
    if forall x :: x in Current(inp) + Targets(inp.renames) ==> !Superseded(m, x) {
      SettledAll(l, inp.renames, |inp.renames|);
      ChainsStayClean(l, inp.renames, |inp.renames|);
      SettledDead(m, l', Current(inp), Targets(inp.renames));
      DeadIsOk(l');
    }
  }

  lemma SettledDead(m: Lock, l: Lock, current: set<Key>, targets: set<Key>)
    requires Settled(m, targets) && m.previous == l.previous && l.ids.Keys == m.ids.Keys + current
    requires forall x :: x in current + targets ==> !Superseded(m, x)
    ensures Dead(l)
  {
    hide Superseded;
    forall x | Superseded(l, x) ensures x !in l.ids {
      SameSuperseded(m, l, x);
    }
  }

  lemma RunShape(l: Lock, inp: Input, l': Lock, newIds: seq<int>)
    requires Success(l, inp, l', newIds)
    ensures LockOk(l) && RenameAll(l, inp.renames).Some?
    ensures l'.previous == RenameAll(l, inp.renames).value.previous && l'.previous.Keys <= l'.ids.Keys
    ensures l'.ids.Keys == RenameAll(l, inp.renames).value.ids.Keys + Current(inp)
  {
    AssignedKeys(RenameAll(l, inp.renames).value, inp, l', newIds);
  }

  lemma DeadIsOk(l: Lock)
    requires IdsOk(l.ids) && NoEmptyChain(l) && l.previous.Keys <= l.ids.Keys && NoRepeats(l.previous) && Dead(l)
    ensures LockOk(l)
  {
    forall k, i | k in l.previous && 0 <= i < |l.previous[k]|
      ensures l.previous[k][i] !in l.ids
    {
      var x := l.previous[k][i];
      assert x in Chain(l.previous, k);
    }
  }

  /** A run whose targets are current keys and whose lock loads again is idle when run again. */
  lemma TargetsIdle(l: Lock, inp: Input, l': Lock, newIds: seq<int>)
    requires Success(l, inp, l', newIds) && LockOk(l') && Targets(inp.renames) <= Current(inp)
    ensures Success(l', inp, l', [])
  {
    hide Success, LockOk;
    RunShape(l, inp, l', newIds);
    RerunIdle(l, inp, l', newIds);
    forall i | 0 <= i < |inp.renames| ensures inp.renames[i].new_ in l'.ids {
      assert inp.renames[i].new_ in Targets(inp.renames);
    }
  }

  lemma MovedIs(l: Lock, renames: seq<Rename>, i: nat, m: Lock)
    requires i < |renames| && RenameAll(l, renames[..i]) == Some(m)
    ensures Moved(l, renames, i) == Holder(m, renames[i])
  {
  }

  /** Rename i moves an id away from a key the node had given up before. */
  ghost predicate Leaves(l: Lock, renames: seq<Rename>, i: nat)
    requires i < |renames|
  {
    RenameAll(l, renames[..i]).Some? && Moved(l, renames, i).Some? &&
    Moved(l, renames, i).value in Chain(RenameAll(l, renames[..i]).value.previous, Moved(l, renames, i).value)
  }

  ghost predicate DistinctTargets(renames: seq<Rename>) {
    forall i, j :: 0 <= i < j < |renames| ==> renames[i].new_ != renames[j].new_
  }

  /** Moving an id to a key without a chain of its own repeats something exactly when the key left is in its own chain
      or something was repeated before. */
  lemma MoveRepeats(m: Lock, h: Key, new_: Key)
    requires h in m.ids && new_ !in m.ids && new_ !in m.previous
    ensures NoRepeats(MoveKey(m, h, new_).previous) <==> NoRepeats(m.previous) && h !in Chain(m.previous, h)
  {
    hide Without;
    var n, chain := MoveKey(m, h, new_).previous, Chain(m.previous, h);
    WithoutNothing(chain + [h]);
    var own: seq<Key> := [];
    assert own + (chain + [h]) == chain + [h];
    assert n[new_] == chain + [h];
    if NoRepeats(m.previous) && h !in chain {
      MoveNoRepeats(m, h, new_);
    }
    if NoRepeats(n) {
      assert Distinct(chain + [h]);
      DistinctFront(chain, h);
      forall k | k in m.previous ensures Distinct(m.previous[k]) {
        assert k != h ==> k in n && n[k] == m.previous[k];
      }
    }
  }

  lemma DistinctFront(s: seq<Key>, x: Key)
    requires Distinct(s + [x])
    ensures Distinct(s) && x !in s
  {
    var more := s + [x];
    assert forall i :: 0 <= i < |s| ==> more[i] == s[i];
    assert more[|s|] == x;
  }

  lemma NoteRepeats(m: Lock, r: Rename)
    ensures NoRepeats(NoteKey(m, r).previous) <==> NoRepeats(m.previous)
  {
    if NoRepeats(m.previous) {
      NoteNoRepeats(m, r);
    }
    if NoRepeats(NoteKey(m, r).previous) && r.old_ !in Chain(m.previous, r.new_) {
      var n := NoteKey(m, r).previous;
      assert n[r.new_] == Chain(m.previous, r.new_) + [r.old_];
      assert Distinct(n[r.new_]);
      DistinctFront(Chain(m.previous, r.new_), r.old_);
      forall k | k in m.previous ensures Distinct(m.previous[k]) {
        assert k != r.new_ ==> n[k] == m.previous[k];
      }
    }
  }

  /** Renames to distinct keys repeat nothing in a chain exactly when none leaves a key given up before. */
  lemma {:induction false} RepeatsExact(l: Lock, renames: seq<Rename>, n: nat)
    requires LockOk(l) && DistinctTargets(renames) && n <= |renames| && RenameAll(l, renames[..n]).Some?
    ensures NoRepeats(RenameAll(l, renames[..n]).value.previous) <==>
              forall i :: 0 <= i < n ==> !Leaves(l, renames, i)
  {
    hide LockOk, NoRepeats, MoveKey, NoteKey, Leaves;
    OkParts(l);
    if n == 0 {
      LoadedNoRepeats(l);
    } else {
      assert renames[..n][..n - 1] == renames[..n - 1];
      Prefix(l, renames[..n], n - 1);
      RepeatsExact(l, renames, n - 1);
      var m, r := RenameAll(l, renames[..n - 1]).value, renames[n - 1];
      MovedIs(l, renames, n - 1, m);
      LeavesMeans(l, renames, n - 1, m);
      OrphansExact(l, renames, n - 1);
      assert !Orphan(l, renames, n - 1, r.new_);
      match Holder(m, r)
      case Some(h) => MoveRepeats(m, h, r.new_);
      case None => NoteRepeats(m, r);
    }
  }

  lemma LeavesMeans(l: Lock, renames: seq<Rename>, i: nat, m: Lock)
    requires i < |renames| && RenameAll(l, renames[..i]) == Some(m)
    ensures Leaves(l, renames, i) <==>
              Holder(m, renames[i]).Some? &&
              Holder(m, renames[i]).value in Chain(m.previous, Holder(m, renames[i]).value)
  {
  }

  /** Renames to distinct keys, current or not: the lock a run writes loads again exactly when no key that is current or
      holds an id after the renames is a former key, and no rename leaves a key its node had given up before. */
  lemma DistinctRunLoads(l: Lock, inp: Input, l': Lock, newIds: seq<int>)
    requires Success(l, inp, l', newIds) && DistinctTargets(inp.renames)
    ensures LockOk(l') <==>
              (forall x :: x in Current(inp) || LiveAt(l, inp.renames, |inp.renames|, x) ==>
                 !Former(l, inp.renames, |inp.renames|, x)) &&
              forall i :: 0 <= i < |inp.renames| ==> !Leaves(l, inp.renames, i)
  {
    hide Success, Assigns, Former, LockOk, IdsOk, Superseded, NoRepeats, Leaves;
    RunShape(l, inp, l', newIds);
    OkParts(l);
    RunSafe(l, inp, l', newIds);
    assert inp.renames[..|inp.renames|] == inp.renames;
    var m := RenameAll(l, inp.renames).value;
    FormerExact(l, inp.renames, |inp.renames|);
    RepeatsExact(l, inp.renames, |inp.renames|);
    forall x ensures Superseded(l', x) <==> Superseded(m, x) {
      SameSuperseded(m, l', x);
    }
    assert forall x :: x in l'.ids <==> x in Current(inp) || LiveAt(l, inp.renames, |inp.renames|, x);
    if LockOk(l') {
      LoadedNoRepeats(l');
      forall x | x in l'.ids ensures !Superseded(m, x) {
        if Superseded(l', x) {
          SupersededDead(l', x);
        }
      }
    }
    if (forall x :: x in l'.ids ==> !Superseded(m, x)) && NoRepeats(m.previous) {
      assert Dead(l');
      DeadIsOk(l');
    }
  }

  // ---------------------------------------------------------- separate renames

  /** Rename i would move the id of locked key k: the target is free and k is the source or records it. */
  ghost predicate Claims(l: Lock, r: Rename, k: Key) {
    r.new_ !in l.ids && k in l.ids && (k == r.old_ || r.old_ in Chain(l.previous, k))
  }

  /** Rename r leaves k alone: k is neither of its keys, nor would r move it. */
  ghost predicate Spares(l: Lock, r: Rename, k: Key) {
    r.new_ != k && r.old_ != k && !Claims(l, r, k)
  }

  /** Sources differ, targets differ, no target is a source, and no key one rename may move is of any use to another. */
  ghost predicate Separate(l: Lock, renames: seq<Rename>) {
    (forall i, j :: 0 <= i < j < |renames| ==>
      renames[i].old_ != renames[j].old_ && renames[i].new_ != renames[j].new_) &&
    (forall i, j :: 0 <= i < |renames| && 0 <= j < |renames| ==> renames[i].old_ != renames[j].new_) &&
    (forall i, j, k :: 0 <= i < |renames| && 0 <= j < |renames| && i != j && Claims(l, renames[i], k) ==>
       Spares(l, renames[j], k))
  }

  /** To a rename still to come the state m looks as the stored lock l does. */
  ghost predicate LooksSame(l: Lock, r: Rename, m: Lock) {
    (r.new_ in m.ids <==> r.new_ in l.ids) && (r.old_ in m.ids <==> r.old_ in l.ids) &&
    (r.new_ !in l.ids ==>
       Chain(m.previous, r.new_) == [] && Holders(m, r.old_) == Holders(l, r.old_) &&
       forall k :: Claims(l, r, k) ==> Chain(m.previous, k) == Chain(l.previous, k))
  }

  ghost predicate Pending(l: Lock, renames: seq<Rename>, i: nat, m: Lock) {
    forall j :: i <= j < |renames| ==> LooksSame(l, renames[j], m)
  }

  lemma HolderSame(l: Lock, m: Lock, r: Rename)
    requires LooksSame(l, r, m)
    ensures Holder(m, r) == Holder(l, r)
    ensures Holder(l, r).Some? && r.new_ !in l.ids ==> Claims(l, r, Holder(l, r).value) && Holder(l, r).value in m.ids
  {
    if r.old_ !in l.ids && r.new_ !in l.ids && Holders(l, r.old_) != {} {
      LeastUnique(Holders(l, r.old_), Holder(l, r).value, Holder(m, r).value);
    }
  }

  /** A rename that moves an id changes nothing for a separate one. */
  lemma MoveUnseen(l: Lock, m: Lock, r: Rename, h: Key, q: Rename)
    requires LooksSame(l, r, m) && LooksSame(l, q, m) && Claims(l, r, h) && h in m.ids && Spares(l, q, h)
    requires q.new_ != r.new_ && q.old_ != r.new_ && q.old_ != r.old_
    ensures LooksSame(l, q, MoveKey(m, h, r.new_))
  {
    hide Without;
    var n := MoveKey(m, h, r.new_);
    MoveChains(m, h, r.new_);
    if q.new_ !in l.ids {
      assert Holders(n, q.old_) == Holders(m, q.old_);
      forall k | Claims(l, q, k) ensures Chain(n.previous, k) == Chain(l.previous, k) {
        assert k != h && k != r.new_;
      }
    }
  }

  lemma NoteUnseen(l: Lock, m: Lock, r: Rename, q: Rename)
    requires LooksSame(l, q, m) && q.new_ != r.new_ && q.old_ != r.new_ && q.old_ != r.old_
    requires forall k :: Claims(l, q, k) ==> k != r.new_
    ensures LooksSame(l, q, NoteKey(m, r))
  {
    NoteChains(m, r);
    var n := NoteKey(m, r);
    if q.new_ !in l.ids {
      assert Holders(n, q.old_) == Holders(m, q.old_);
    }
  }

  lemma SeparateStep(l: Lock, renames: seq<Rename>, i: nat, m: Lock)
    requires Separate(l, renames) && i < |renames| && Pending(l, renames, i, m)
    requires RenameOne(m, renames[i]).Some?
    ensures Pending(l, renames, i + 1, RenameOne(m, renames[i]).value)
  {
    hide Separate, MoveKey, NoteKey, LooksSame, Claims, Spares;
    var r := renames[i];
    assert LooksSame(l, r, m);
    HolderSame(l, m, r);
    forall j | i + 1 <= j < |renames| ensures LooksSame(l, renames[j], RenameOne(m, r).value) {
      SeparatePair(l, renames, i, j);
      SameTarget(l, r, m);
      assert LooksSame(l, renames[j], m);
      match Holder(m, r)
      case Some(h) => MoveUnseen(l, m, r, h, renames[j]);
      case None => NoteUnseen(l, m, r, renames[j]);
    }
  }

  lemma SameTarget(l: Lock, r: Rename, m: Lock)
    requires LooksSame(l, r, m)
    ensures r.new_ in m.ids <==> r.new_ in l.ids
  {
  }

  lemma SeparatePair(l: Lock, renames: seq<Rename>, i: nat, j: nat)
    requires Separate(l, renames) && i < j < |renames|
    ensures renames[j].new_ != renames[i].new_ && renames[j].old_ != renames[i].new_ &&
              renames[j].old_ != renames[i].old_
    ensures forall k :: Claims(l, renames[i], k) ==> Spares(l, renames[j], k)
    ensures forall k :: Claims(l, renames[j], k) ==> k != renames[i].new_
  {
    forall k | Claims(l, renames[j], k) ensures k != renames[i].new_ {
      assert Spares(l, renames[i], k);
    }
  }

  lemma CollidesWhen(l: Lock, m: Lock, r: Rename)
    requires LooksSame(l, r, m)
    ensures RenameOne(m, r).None? <==> r.old_ in l.ids && r.new_ in l.ids
  {
    HolderSame(l, m, r);
  }

  /** Separate renames collide only where the stored lock already holds both keys, and each moves the id the stored lock
      says it would. */
  lemma {:induction false} SeparateRenames(l: Lock, renames: seq<Rename>, n: nat)
    requires LockOk(l) && Separate(l, renames) && n <= |renames|
    ensures RenameAll(l, renames[..n]).Some? <==>
              forall i :: 0 <= i < n ==> !(renames[i].old_ in l.ids && renames[i].new_ in l.ids)
    ensures RenameAll(l, renames[..n]).Some? ==>
              Pending(l, renames, n, RenameAll(l, renames[..n]).value) &&
              forall i :: 0 <= i < n ==> Moved(l, renames, i) == Holder(l, renames[i])
  {
    hide LockOk, Separate, LooksSame, Claims, RenameOne, Holder, Moved;
    if n == 0 {
      PendingStart(l, renames);
    } else {
      SeparateRenames(l, renames, n - 1);
      assert renames[..n][..n - 1] == renames[..n - 1];
      if RenameAll(l, renames[..n - 1]).Some? {
        var m, r := RenameAll(l, renames[..n - 1]).value, renames[n - 1];
        assert LooksSame(l, r, m);
        HolderSame(l, m, r);
        CollidesWhen(l, m, r);
        if RenameOne(m, r).Some? {
          SeparateStep(l, renames, n - 1, m);
        }
        MovedIs(l, renames, n - 1, m);
      }
    }
  }

  lemma PendingStart(l: Lock, renames: seq<Rename>)
    requires LockOk(l)
    ensures Pending(l, renames, 0, l)
  {
  }

  /** With separate renames everything can be read off the stored lock: the lock a run writes loads again exactly when
      no current key and no target is recorded in the stored lock, is a source, or holds the id of one there. */
  lemma SeparateRunLoads(l: Lock, inp: Input, l': Lock, newIds: seq<int>)
    requires Success(l, inp, l', newIds) && Targets(inp.renames) <= l'.ids.Keys && Separate(l, inp.renames)
    ensures LockOk(l') <==>
              forall x :: x in Current(inp) + Targets(inp.renames) ==>
                !Superseded(l, x) &&
                forall j :: 0 <= j < |inp.renames| ==> inp.renames[j].old_ != x && Holder(l, inp.renames[j]) != Some(x)
  {
    hide Success, Assigns, LockOk, Superseded, Separate, Holder, Moved;
    RunShape(l, inp, l', newIds);
    RunLoads(l, inp, l', newIds);
    SeparateRenames(l, inp.renames, |inp.renames|);
    assert inp.renames[..|inp.renames|] == inp.renames;
  }

  /** The same for a single rename, whatever it is. */
  lemma OneRenameLoads(l: Lock, inp: Input, r: Rename, l': Lock, newIds: seq<int>)
    requires Success(l, inp, l', newIds) && inp.renames == [r]
    ensures LockOk(l') <==>
              forall x :: x in Current(inp) + {r.new_} ==> !Superseded(l, x) && r.old_ != x && Holder(l, r) != Some(x)
  {
    hide Assigns, LockOk, Superseded, IdsOk;
    RunShape(l, inp, l', newIds);
    OkParts(l);
    assert inp.renames[..0] == [];
    assert Moved(l, inp.renames, 0) == Holder(l, r);
    var m := RenameAll(l, inp.renames).value;
    assert RenameOne(l, r) == Some(m);
    RenameOneKeeps(l, r);
    ChainOwner(m, r.new_, r.old_);
    assert inp.renames[0] == r;
    assert Targets(inp.renames) == {r.new_};
    RunLoads(l, inp, l', newIds);
  }

  lemma ChainOwner(m: Lock, k: Key, x: Key)
    ensures x in Chain(m.previous, k) ==> k in m.previous
  {
  }

  const LOST := Input([], [], {}, [Rename("a", "b")])

  /** A rename to a key that is neither current nor locked, with nothing to move, leaves a chain that cannot be written.
      */
  lemma RenameToNowhere()
    ensures LockOk(EMPTY) && RenameAll(EMPTY, LOST.renames) == Some(Lock(map[], map["b" := ["a"]]))
    ensures "b" !in Current(LOST) && Orphan(EMPTY, LOST.renames, 1, "b")
    ensures forall l, newIds :: !Success(EMPTY, LOST, l, newIds)
  {
    assert LOST.renames[..0] == [];
    assert Holders(EMPTY, "a") == {};
    var m := Lock(map[], map["b" := ["a"]]);
    var chain: seq<Key> := [];
    assert chain + ["a"] == ["a"];
    assert NoteKey(EMPTY, Rename("a", "b")) == m;
    assert RenameOne(EMPTY, LOST.renames[0]) == Some(m);
    assert "b" in m.previous.Keys;
    SuccessNeedsOwners(EMPTY, LOST, m);
  }

  const BEFORE := Lock(map["b" := 1001], map["b" := ["a"]])
  const BACK := Input(["a"], [], {}, [Rename("b", "a")])
  const AFTER := Lock(map["a" := 1001], map["a" := ["a", "b"]])

  lemma BackMoves()
    ensures RenameAll(BEFORE, BACK.renames) == Some(AFTER)
  {
    var chain: seq<Key> := Chain(BEFORE.previous, "b") + ["b"];
    assert chain == ["a", "b"] && BEFORE.previous - {"b"} == map[] && BEFORE.ids - {"b"} == map[];
    WithoutNothing(chain);
    var own: seq<Key> := [];
    assert own + chain == chain;
    assert MoveKey(BEFORE, "b", "a") == Lock(map["a" := 1001], map["a" := own + Without(chain, own)]);
    assert BACK.renames[..0] == [] && "b" in BEFORE.ids && "a" !in BEFORE.ids;
  }

  /** Renaming a key back to a former one: the run succeeds, yet the lock it writes lists a live key in its own chain
      and does not load again. */
  lemma RenameBackRejected()
    ensures Success(BEFORE, BACK, AFTER, []) && !LockOk(AFTER)
  {
    BackMoves();
    assert "a" in BACK.land;
    NothingToAssign(AFTER, BACK);
    assert AFTER.previous["a"][0] in AFTER.ids;
  }

  /** That run is as the command asks for, and the key that breaks it was recorded before. */
  lemma RenameBackKnown()
    ensures LockOk(BEFORE) && Targets(BACK.renames) <= Current(BACK) && Separate(BEFORE, BACK.renames)
    ensures "a" in Current(BACK) && Superseded(BEFORE, "a")
  {
    assert "a" in BACK.land;
    assert "a" in Chain(BEFORE.previous, "b");
  }

  const VIA := Input(["c"], [], {}, [Rename("b", "a"), Rename("a", "c")])
  const TWICE := Lock(map["c" := 1001], map["c" := ["a", "b", "a"]])

  lemma MovesOn()
    ensures MoveKey(AFTER, "a", "c") == TWICE
  {
    var chain: seq<Key> := Chain(AFTER.previous, "a") + ["a"];
    assert chain == ["a", "b", "a"] && AFTER.previous - {"a"} == map[] && AFTER.ids - {"a"} == map[];
    WithoutNothing(chain);
    var own: seq<Key> := [];
    assert own + chain == chain;
    assert MoveKey(AFTER, "a", "c") == Lock(map["c" := 1001], map["c" := own + Without(chain, own)]);
  }

  lemma MovesTwice()
    ensures VIA.renames[..1] == BACK.renames && RenameAll(BEFORE, VIA.renames) == Some(TWICE)
  {
    BackMoves();
    MovesOn();
    assert VIA.renames[..1] == BACK.renames;
    assert "a" in AFTER.ids && "c" !in AFTER.ids;
    assert RenameOne(AFTER, VIA.renames[1]) == Some(TWICE);
  }

  lemma ViaLeaves()
    ensures Leaves(BEFORE, VIA.renames, 1)
  {
    hide RenameAll, MoveKey;
    MovesTwice();
    BackMoves();
    MovedIs(BEFORE, VIA.renames, 1, AFTER);
    assert AFTER.previous["a"][0] == "a";
  }

  lemma TwiceRepeats()
    ensures !LockOk(TWICE) && forall x :: x in TWICE.ids ==> !Superseded(TWICE, x)
  {
    assert TWICE.previous["c"][0] == TWICE.previous["c"][2];
  }

  lemma TwiceAssigns()
    ensures Assigns(TWICE, VIA, TWICE, [])
  {
    hide Assigns;
    assert "c" in VIA.land;
    NothingToAssign(TWICE, VIA);
  }

  /** Passing through a former key on the way to a new one: no key in use is former, yet the chain lists the former key
      twice and the lock does not load again. */
  lemma RenameViaRejected()
    ensures Success(BEFORE, VIA, TWICE, []) && !LockOk(TWICE)
    ensures DistinctTargets(VIA.renames) && Leaves(BEFORE, VIA.renames, 1)
    ensures forall x :: x in TWICE.ids ==> !Superseded(TWICE, x)
  {
    hide RenameAll, Leaves, Superseded, Assigns, LockOk;
    RenameBackKnown();
    MovesTwice();
    ViaLeaves();
    TwiceRepeats();
    TwiceAssigns();
  }
}
