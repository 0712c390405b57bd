/** One-time entry links (backend/src/core/admin/panel_access.py): a bounded, expiring, single-use ticket store. The
    token generator and the clock are parameters; the stored key is the token's hash. */
module PanelLinks {
  import opened Optional

  datatype Entry = Entry(key: string, player: string, expires: real, used: bool)

  const HARD_CAP := 1000

  // --------------------------------------------------------- entries as values

  ghost predicate UniqueKeys(es: seq<Entry>) {
    forall i, j :: 0 <= i < j < |es| ==> es[i].key != es[j].key
  }

  /** The keys of the wanted entries, oldest first. */
  function KeysOf(es: seq<Entry>, want: Entry -> bool): (r: seq<string>)
    ensures |r| <= |es|
  {
    if es == [] then [] else (if want(es[0]) then [es[0].key] else []) + KeysOf(es[1..], want)
  }

  /** The entries without the k oldest wanted ones. */
  function Drop(es: seq<Entry>, want: Entry -> bool, k: nat): (r: seq<Entry>)
    ensures |r| <= |es| && forall e :: e in r ==> e in es
  {
    if es == [] || k == 0 then es
    else if want(es[0]) then Drop(es[1..], want, k - 1)
    else [es[0]] + Drop(es[1..], want, k)
  }

  function Without(es: seq<Entry>, key: string): seq<Entry> {
    if es == [] then [] else if es[0].key == key then Without(es[1..], key) else [es[0]] + Without(es[1..], key)
  }

  function Find(es: seq<Entry>, key: string): (i: nat)
    ensures i <= |es| && (i < |es| ==> es[i].key == key) && forall j :: 0 <= j < i ==> es[j].key != key
  {
    if es == [] || es[0].key == key then 0 else 1 + Find(es[1..], key)
  }

  /** Setting a key that is present keeps its place; a new key goes last. */
  function Put(es: seq<Entry>, e: Entry): seq<Entry> {
    var i := Find(es, e.key);
    if i < |es| then es[i := e] else es + [e]
  }

  predicate Expired(e: Entry, now: real) {
    e.expires <= now
  }

  predicate Pending(e: Entry, player: string) {
    e.player == player && !e.used
  }

  function Alive(es: seq<Entry>, now: real): seq<Entry> {
    Drop(es, e => Expired(e, now), |es|)
  }

  function PendingCount(es: seq<Entry>, player: string): nat {
    |KeysOf(es, e => Pending(e, player))|
  }

  function Excess(pending: nat, most: int): nat {
    if pending - (most - 1) > 0 then pending - (most - 1) else 0
  }

  function Newest(es: seq<Entry>, n: nat): seq<Entry> {
    if |es| > n then es[|es| - n..] else es
  }

  /** What remains of the store before the new entry lands. */
  function Roomy(es: seq<Entry>, player: string, most: int, now: real): seq<Entry> {
    var alive := Alive(es, now);
    Newest(Drop(alive, e => Pending(e, player), Excess(PendingCount(alive, player), most)), HARD_CAP - 1)
  }

  function Issued(es: seq<Entry>, player: string, ttl: int, most: int, key: string, now: real,
                  later: real): seq<Entry> {
    Put(Roomy(es, player, most, now), Entry(key, player, later + ttl as real, false))
  }

  /** A key opens when its entry is present, unspent and not yet expired. */
  predicate Opens(es: seq<Entry>, key: string, now: real) {
    var i := Find(es, key);
    i < |es| && !es[i].used && !Expired(es[i], now)
  }

  function Redeemed(es: seq<Entry>, key: string, now: real, later: real): seq<Entry> {
    var alive := Alive(es, now);
    var i := Find(alive, key);
    if Opens(alive, key, later) then alive[i := alive[i].(used := true)] else alive
  }

  // ----------------------------------------------------------------- the store

  class PanelLinkStore {
    var entries: seq<Entry>

    ghost predicate Valid()
      reads this
    {
      UniqueKeys(entries)
    }

    constructor ()
      ensures Valid() && entries == []
    {
      entries := [];
    }

    method Delete(key: string)
      requires Valid()
      modifies this
      ensures Valid() && entries == Without(old(entries), key)
    {
      WithoutUnique(entries, key);
      entries := Without(entries, key);
    }

    /** Deletes the k oldest wanted entries by their keys. */
    method DeleteEach(keys: seq<string>, ghost want: Entry -> bool)
      requires Valid() && keys <= KeysOf(entries, want)
      modifies this
      ensures Valid() && entries == Drop(old(entries), want, |keys|)
    {
      DropNone(entries, want);
      for i := 0 to |keys|
        invariant Valid() && entries == Drop(old(entries), want, i)
        invariant keys[i..] <= KeysOf(entries, want)
      {
        ghost var before := entries;
        FirstDropped(before, want);
        DropMore(old(entries), want, i);
        Delete(keys[i]);
      }
    }

    method PurgeExpired(now: real)
      requires Valid()
      modifies this
      ensures Valid() && entries == Alive(old(entries), now)
    {
      var keys := KeysOf(entries, e => Expired(e, now));
      DropEnough(entries, e => Expired(e, now), |keys|, |entries|);
      DeleteEach(keys, e => Expired(e, now));
    }

    /** Drops the player's oldest pending links above the cap. */
    method DropExcess(player: string, most: int)
      requires Valid()
      modifies this
      ensures Valid()
      ensures entries == Drop(old(entries), e => Pending(e, player), Excess(PendingCount(old(entries), player), most))
    {
      var pending := KeysOf(entries, e => Pending(e, player));
      var extra := if |pending| - (most - 1) > 0 then |pending| - (most - 1) else 0;
      var doomed := pending[..if extra < |pending| then extra else |pending|];
      DropEnough(entries, e => Pending(e, player), |doomed|, extra);
      DeleteEach(doomed, e => Pending(e, player));
    }

    /** Drops the oldest entries until there is room for one more. */
    method MakeRoom()
      requires Valid()
      modifies this
      ensures Valid() && entries == Newest(old(entries), HARD_CAP - 1)
    {
      while |entries| >= HARD_CAP
        invariant Valid() && Newest(entries, HARD_CAP - 1) == Newest(old(entries), HARD_CAP - 1)
      {
        WithoutFirst(entries);
        Delete(entries[0].key);
      }
    }

    /** Makes room for a new link and stores it; the bounds are enforced before the entry lands. */
    method Issue(player: string, ttl: int, most: int, key: string, now: real, later: real)
      requires Valid()
      modifies this
      ensures Valid() && entries == Issued(old(entries), player, ttl, most, key, now, later)
    {
      hide Alive, Drop, PendingCount, Excess, Newest, Put;
      PurgeExpired(now);
      DropExcess(player, most);
      MakeRoom();
      var e := Entry(key, player, later + ttl as real, false);
      PutUnique(entries, e);
      entries := Put(entries, e);
    }

    /** Checks a key and marks it spent. */
    method Redeem(token: string, key: string, now: real, later: real) returns (player: Option<string>)
      requires Valid()
      modifies this
      ensures Valid()
      ensures token == "" ==> player == None && entries == old(entries)
      ensures token != "" ==> entries == Redeemed(old(entries), key, now, later)
      ensures token != "" ==>
                var alive := Alive(old(entries), now);
                player == if Opens(alive, key, later) then Some(alive[Find(alive, key)].player) else None
    {
      if token == "" {
        return None;
      }
      PurgeExpired(now);
      var i := Find(entries, key);
      if i == |entries| || entries[i].used || entries[i].expires <= later {
        return None;
      }
      player := Some(entries[i].player);
      entries := entries[i := entries[i].(used := true)];
    }
  }

  lemma {:induction false} WithoutUnique(es: seq<Entry>, key: string)
    requires UniqueKeys(es)
    ensures UniqueKeys(Without(es, key)) && forall e :: e in Without(es, key) ==> e in es && e.key != key
  {
    if es != [] {
      WithoutUnique(es[1..], key);
      var rest := Without(es[1..], key);
      forall j | 0 <= j < |rest| ensures rest[j].key != es[0].key {
        assert rest[j] in es[1..];
      }
    }
  }

  lemma {:induction false} WithoutAbsent(es: seq<Entry>, key: string)
    requires forall i :: 0 <= i < |es| ==> es[i].key != key
    ensures Without(es, key) == es
  {
    if es != [] {
      WithoutAbsent(es[1..], key);
    }
  }

  lemma WithoutFirst(es: seq<Entry>)
    requires UniqueKeys(es) && es != []
    ensures Without(es, es[0].key) == es[1..]
  {
    WithoutAbsent(es[1..], es[0].key);
  }

  lemma {:induction false} DropNone(es: seq<Entry>, want: Entry -> bool)
    ensures Drop(es, want, 0) == es
  {
  }

  /** Deleting the oldest wanted key drops the oldest wanted entry. */
  lemma {:induction false} FirstDropped(es: seq<Entry>, want: Entry -> bool)
    requires UniqueKeys(es) && KeysOf(es, want) != []
    ensures Without(es, KeysOf(es, want)[0]) == Drop(es, want, 1)
    ensures KeysOf(Drop(es, want, 1), want) == KeysOf(es, want)[1..]
  {
    if want(es[0]) {
      WithoutFirst(es);
    } else {
      FirstDropped(es[1..], want);
      KeyFound(es[1..], want);
      var d := Drop(es[1..], want, 1);
      assert ([es[0]] + d)[1..] == d;
    }
  }

  lemma {:induction false} KeyFound(es: seq<Entry>, want: Entry -> bool)
    requires KeysOf(es, want) != []
    ensures exists i :: 0 <= i < |es| && es[i].key == KeysOf(es, want)[0]
  {
    if !want(es[0]) {
      KeyFound(es[1..], want);
      var i :| 0 <= i < |es| - 1 && es[1..][i].key == KeysOf(es[1..], want)[0];
      assert es[i + 1].key == KeysOf(es, want)[0];
    }
  }

  lemma {:induction false} DropMore(es: seq<Entry>, want: Entry -> bool, k: nat)
    ensures Drop(Drop(es, want, k), want, 1) == Drop(es, want, k + 1)
  {
    if es != [] && k > 0 {
      if want(es[0]) {
        DropMore(es[1..], want, k - 1);
      } else {
        DropMore(es[1..], want, k);
        var d := Drop(es[1..], want, k);
        assert ([es[0]] + d)[1..] == d;
      }
    }
  }

  /** Dropping more entries than are wanted drops them all. */
  lemma {:induction false} DropEnough(es: seq<Entry>, want: Entry -> bool, a: nat, b: nat)
    requires a == b || (a <= b && a >= |KeysOf(es, want)|)
    ensures Drop(es, want, a) == Drop(es, want, b)
  {
    if es != [] && a != b {
      if want(es[0]) {
        DropEnough(es[1..], want, a - 1, b - 1);
      } else {
        DropEnough(es[1..], want, a, b);
        if a == 0 {
          DropNone(es[1..], want);
        }
      }
    }
  }

  lemma PutUnique(es: seq<Entry>, e: Entry)
    requires UniqueKeys(es)
    ensures UniqueKeys(Put(es, e))
  {
  }

  // ----------------------------------------------------------- bounds and order

  lemma Joined(a: seq<string>, b: seq<string>, c: seq<string>)
    ensures a + (b + c) == (a + b) + c
  {
  }

  lemma {:induction false} KeysAppend(a: seq<Entry>, b: seq<Entry>, want: Entry -> bool)
    ensures KeysOf(a + b, want) == KeysOf(a, want) + KeysOf(b, want)
  {
    if a == [] {
      assert a + b == b;
    } else {
      var s := a + b;
      assert s[0] == a[0] && s[1..] == a[1..] + b;
      KeysAppend(a[1..], b, want);
      Joined(if want(a[0]) then [a[0].key] else [], KeysOf(a[1..], want), KeysOf(b, want));
    }
  }

  lemma {:induction false} DropCount(es: seq<Entry>, want: Entry -> bool, k: nat)
    ensures var c := |KeysOf(es, want)|;
            |KeysOf(Drop(es, want, k), want)| == if c > k then c - k else 0
  {
    if es != [] && k > 0 {
      if want(es[0]) {
        DropCount(es[1..], want, k - 1);
      } else {
        DropCount(es[1..], want, k);
        assert Drop(es, want, k)[1..] == Drop(es[1..], want, k);
      }
    }
  }

  /** Dropping entries of one kind leaves no more of any other kind. */
  lemma {:induction false} DropFewer(es: seq<Entry>, want: Entry -> bool, k: nat, other: Entry -> bool)
    ensures |KeysOf(Drop(es, want, k), other)| <= |KeysOf(es, other)|
  {
    if es != [] && k > 0 {
      if want(es[0]) {
        DropFewer(es[1..], want, k - 1, other);
      } else {
        DropFewer(es[1..], want, k, other);
        assert Drop(es, want, k)[1..] == Drop(es[1..], want, k);
      }
    }
  }

  lemma SuffixFewer(es: seq<Entry>, i: nat, want: Entry -> bool)
    requires i <= |es|
    ensures |KeysOf(es[i..], want)| <= |KeysOf(es, want)|
  {
    KeysAppend(es[..i], es[i..], want);
    assert es[..i] + es[i..] == es;
  }

  lemma PutCount(es: seq<Entry>, e: Entry, want: Entry -> bool)
    ensures |KeysOf(Put(es, e), want)| <= |KeysOf(es, want)| + 1
  {
    var i := Find(es, e.key);
    if i < |es| {
      var before, after := es[..i], es[i + 1..];
      assert es == before + ([es[i]] + after) && Put(es, e) == before + ([e] + after);
      KeysAppend(before, [es[i]] + after, want);
      KeysAppend(before, [e] + after, want);
      KeysAppend([es[i]], after, want);
      KeysAppend([e], after, want);
    } else {
      KeysAppend(es, [e], want);
    }
  }

  /** After an issue the store is bounded, and so are the player's pending links. */
  lemma IssueBounds(es: seq<Entry>, player: string, ttl: int, most: int, key: string, now: real, later: real)
    ensures var after := Issued(es, player, ttl, most, key, now, later);
            |after| <= HARD_CAP && PendingCount(after, player) <= if most >= 1 then most else 1
  {
    var alive := Alive(es, now);
    var kept := Drop(alive, e => Pending(e, player), Excess(PendingCount(alive, player), most));
    DropCount(alive, e => Pending(e, player), Excess(PendingCount(alive, player), most));
    var roomy := Roomy(es, player, most, now);
    SuffixFewer(kept, |kept| - |roomy|, e => Pending(e, player));
    PutCount(roomy, Entry(key, player, later + ttl as real, false), e => Pending(e, player));
  }

  /** Dropping acts on a prefix first. */
  lemma {:induction false} DropSplit(a: seq<Entry>, b: seq<Entry>, want: Entry -> bool, k: nat)
    ensures var left := if k > |KeysOf(a, want)| then k - |KeysOf(a, want)| else 0;
            Drop(a + b, want, k) == Drop(a, want, k) + Drop(b, want, left)
  {
    if a == [] {
      assert a + b == b;
    } else if k == 0 {
      DropNone(b, want);
    } else {
      assert (a + b)[1..] == a[1..] + b;
      DropSplit(a[1..], b, want, if want(a[0]) then k - 1 else k);
    }
  }

  /** Where an entry stays: what was newer and is kept is still newer. */
  lemma DropAround(es: seq<Entry>, i: nat, want: Entry -> bool, k: nat) returns (at: nat, left: nat)
    requires i < |es| && (want(es[i]) ==> |KeysOf(es[..i], want)| >= k)
    ensures at < |Drop(es, want, k)| && Drop(es, want, k)[at] == es[i]
    ensures Drop(es, want, k)[at + 1..] == Drop(es[i + 1..], want, left)
  {
    var a, e, b := es[..i], es[i], es[i + 1..];
    assert es == a + ([e] + b) && es[i..] == [e] + b;
    DropSplit(a, [e] + b, want, k);
    left := if k > |KeysOf(a, want)| then k - |KeysOf(a, want)| else 0;
    at := |Drop(a, want, k)|;
    assert ([e] + b)[1..] == b;
    if left == 0 {
      DropNone(b, want);
    }
    assert Drop([e] + b, want, left) == [e] + Drop(b, want, left);
  }

  /** A wanted entry is dropped exactly when fewer than k wanted ones are older. */
  lemma DropStays(es: seq<Entry>, i: nat, want: Entry -> bool, k: nat)
    requires UniqueKeys(es) && i < |es| && want(es[i])
    ensures es[i] in Drop(es, want, k) <==> |KeysOf(es[..i], want)| >= k
  {
    if |KeysOf(es[..i], want)| >= k {
      var at, left := DropAround(es, i, want, k);
    } else {
      var a, e, b := es[..i], es[i], es[i + 1..];
      assert es == a + ([e] + b);
      DropSplit(a, [e] + b, want, k);
      assert ([e] + b)[1..] == b;
      assert e !in a && e !in b;
    }
  }

  lemma KeysAround(es: seq<Entry>, i: nat, want: Entry -> bool)
    requires i < |es| && want(es[i])
    ensures |KeysOf(es, want)| == |KeysOf(es[..i], want)| + 1 + |KeysOf(es[i + 1..], want)|
  {
    var a, e, b := es[..i], es[i], es[i + 1..];
    assert es == a + ([e] + b);
    KeysAppend(a, [e] + b, want);
    KeysAppend([e], b, want);
  }

  /** The pending links above the player's cap go, oldest first: a link stays exactly when fewer than most - 1 of the
      player's pending links are newer. */
  lemma OldestFirst(alive: seq<Entry>, player: string, most: int, i: nat)
    requires UniqueKeys(alive) && i < |alive| && Pending(alive[i], player)
    ensures var kept := Drop(alive, e => Pending(e, player), Excess(PendingCount(alive, player), most));
            alive[i] in kept <==> PendingCount(alive[i + 1..], player) < most - 1
  {
    hide Drop, KeysOf;
    DropStays(alive, i, e => Pending(e, player), Excess(PendingCount(alive, player), most));
    KeysAround(alive, i, e => Pending(e, player));
  }

  // ---------------------------------------------------------------------- runs

  datatype Event =
    | Issue(player: string, ttl: int, most: int, token: string, now: real, later: real)
    | Redeem(token: string, now: real, later: real)

  type Hash = string -> string

  /** The store after one call. */
  function Step(hash: Hash, es: seq<Entry>, ev: Event): seq<Entry> {
    match ev
    case Issue(player, ttl, most, token, now, later) => Issued(es, player, ttl, most, hash(token), now, later)
    case Redeem(token, now, later) => if token == "" then es else Redeemed(es, hash(token), now, later)
  }

  function After(hash: Hash, run: seq<Event>, m: nat): seq<Entry>
    requires m <= |run|
  {
    if m == 0 then [] else Step(hash, After(hash, run, m - 1), run[m - 1])
  }

  /** What the j-th call returns to the one who redeems. */
  function Outcome(hash: Hash, run: seq<Event>, j: nat): Option<string>
    requires j < |run|
  {
    if run[j].Issue? || run[j].token == "" then None else
      var alive := Alive(After(hash, run, j), run[j].now);
      if Opens(alive, hash(run[j].token), run[j].later) then Some(alive[Find(alive,
        hash(run[j].token))].player) else None
  }

  /** No two issued tokens have the same hash. */
  ghost predicate Fresh(hash: Hash, run: seq<Event>) {
    forall i, j :: 0 <= i < j < |run| && run[i].Issue? && run[j].Issue? ==> hash(run[i].token) != hash(run[j].token)
  }

  /** The event that put an entry in the store. */
  ghost predicate Made(hash: Hash, ev: Event, e: Entry) {
    ev.Issue? && hash(ev.token) == e.key && ev.player == e.player && e.expires == ev.later + ev.ttl as real
  }

  lemma {:induction false} DropUnique(es: seq<Entry>, want: Entry -> bool, k: nat)
    requires UniqueKeys(es)
    ensures UniqueKeys(Drop(es, want, k))
  {
    if es != [] && k > 0 {
      DropUnique(es[1..], want, if want(es[0]) then k - 1 else k);
      if !want(es[0]) {
        var d := Drop(es[1..], want, k);
        forall j | 0 <= j < |d| ensures d[j].key != es[0].key {
          assert d[j] in es[1..];
        }
      }
    }
  }

  lemma RoomyMembers(es: seq<Entry>, player: string, most: int, now: real)
    requires UniqueKeys(es)
    ensures var r := Roomy(es, player, most, now); UniqueKeys(r) && forall e :: e in r ==> e in es
  {
    var alive := Alive(es, now);
    DropUnique(es, e => Expired(e, now), |es|);
    DropUnique(alive, e => Pending(e, player), Excess(PendingCount(alive, player), most));
  }

  /** A call adds one entry at most, marks one at most, and keeps keys unique. */
  lemma StepMembers(hash: Hash, es: seq<Entry>, ev: Event)
    requires UniqueKeys(es)
    ensures UniqueKeys(Step(hash, es, ev))
    ensures forall e :: e in Step(hash, es, ev) ==>
              || e in es
              || (ev.Issue? && Made(hash, ev, e) && !e.used)
              || (ev.Redeem? && e.used && e.key == hash(ev.token) && e.(used := false) in es)
  {
    hide Roomy, Drop;
    match ev
    case Issue(player, ttl, most, token, now, later) =>
      RoomyMembers(es, player, most, now);
      PutUnique(Roomy(es, player, most, now), Entry(hash(token), player, later + ttl as real, false));
    case Redeem(token, now, later) =>
      DropUnique(es, e => Expired(e, now), |es|);
      var alive := Alive(es, now);
      if token != "" && Opens(alive, hash(token), later) {
        var was := alive[Find(alive, hash(token))];
        assert was in es;
        assert was.(used := true).(used := false) == was;
      }
  }

  /** What holds after m calls: keys are unique, every entry is as it was issued, and a key once redeemed is spent for
      as long as it is stored. */
  ghost predicate Sound(hash: Hash, run: seq<Event>, m: nat)
    requires m <= |run|
  {
    && UniqueKeys(After(hash, run, m))
    && (forall e :: e in After(hash, run, m) ==> exists i :: 0 <= i < m && Made(hash, run[i], e))
    && (forall k, e ::
          0 <= k < m && Outcome(hash, run, k) != None && e in After(hash, run, m) && e.key == hash(run[k].token) ==>
          e.used)
  }

  lemma AliveMembers(es: seq<Entry>, now: real)
    requires UniqueKeys(es)
    ensures UniqueKeys(Alive(es, now)) && forall e :: e in Alive(es, now) ==> e in es
  {
    DropUnique(es, e => Expired(e, now), |es|);
  }

  /** A successful redeem found an unspent entry of its key. */
  lemma Redeems(hash: Hash, run: seq<Event>, j: nat) returns (e: Entry)
    requires j < |run| && Outcome(hash, run, j) != None && UniqueKeys(After(hash, run, j))
    ensures e in After(hash, run, j) && !e.used && e.key == hash(run[j].token)
    ensures Outcome(hash, run, j) == Some(e.player) && run[j].later < e.expires
    ensures forall x :: x in After(hash, run, j + 1) && x.key == e.key ==> x.used
  {
    hide Alive;
    var es, now := After(hash, run, j), run[j].now;
    AliveMembers(es, now);
    var alive := Alive(es, now);
    var i := Find(alive, hash(run[j].token));
    e := alive[i];
    assert e in alive;
    assert After(hash, run, j + 1) == alive[i := e.(used := true)];
  }

  lemma SoundStep(hash: Hash, run: seq<Event>, m: nat)
    requires m < |run| && Fresh(hash, run) && Sound(hash, run, m)
    requires forall k :: 0 <= k < m && Outcome(hash, run, k) != None ==>
               exists i :: 0 <= i < k && run[i].Issue? && hash(run[i].token) == hash(run[k].token)
    ensures Sound(hash, run, m + 1)
  {
    hide Step, Outcome;
    var es, next, ev := After(hash, run, m), After(hash, run, m + 1), run[m];
    assert next == Step(hash, es, ev);
    StepMembers(hash, es, ev);
    forall e | e in next ensures exists i :: 0 <= i < m + 1 && Made(hash, run[i], e) {
      if e in es {
        var i :| 0 <= i < m && Made(hash, run[i], e);
        assert 0 <= i < m + 1;
      } else if ev.Issue? {
        assert Made(hash, run[m], e);
      } else {
        var i :| 0 <= i < m && Made(hash, run[i], e.(used := false));
        assert Made(hash, run[i], e);
      }
    }
    forall k, e | 0 <= k < m + 1 && Outcome(hash, run, k) != None && e in next &&
      e.key == hash(run[k].token) ensures e.used {
      if k == m {
        var x := Redeems(hash, run, m);
      }
    }
  }

  /** In every run whose issued tokens are fresh, every prefix is sound and every redeemed key was issued before. */
  lemma {:induction false} AlwaysSound(hash: Hash, run: seq<Event>, m: nat)
    requires m <= |run| && Fresh(hash, run)
    ensures Sound(hash, run, m)
    ensures forall k :: 0 <= k < m && Outcome(hash, run, k) != None ==>
              exists i :: 0 <= i < k && run[i].Issue? && hash(run[i].token) == hash(run[k].token)
  {
    hide Outcome, Step;
    if m > 0 {
      AlwaysSound(hash, run, m - 1);
      SoundStep(hash, run, m - 1);
      if Outcome(hash, run, m - 1) != None {
        var e := Redeems(hash, run, m - 1);
        var i :| 0 <= i < m - 1 && Made(hash, run[i], e);
      }
    } else {
      assert After(hash, run, 0) == [];
    }
  }

  /** A successful redeem is for the player its token was issued to, before the expiry set then, and is the only
      successful one of its key in the whole run. */
  lemma SingleUse(hash: Hash, run: seq<Event>, j: nat)
    requires Fresh(hash, run) && j < |run| && Outcome(hash, run, j) != None
    ensures exists i :: 0 <= i < j && run[i].Issue? && hash(run[i].token) == hash(run[j].token) &&
                        Outcome(hash, run, j) == Some(run[i].player) && run[j].later < run[i].later + run[i].ttl as real
    ensures forall k :: 0 <= k < |run| && k != j && Outcome(hash, run, k) != None ==>
              hash(run[k].token) != hash(run[j].token)
  {
    hide Outcome, Step;
    AlwaysSound(hash, run, j);
    var e := Redeems(hash, run, j);
    var i :| 0 <= i < j && Made(hash, run[i], e);
    forall k | 0 <= k < |run| && k != j &&
      Outcome(hash, run, k) != None ensures hash(run[k].token) != hash(run[j].token) {
      AlwaysSound(hash, run, k);
      var x := Redeems(hash, run, k);
      assert k > j ==> hash(run[k].token) != hash(run[j].token);
    }
  }

  // ------------------------------------------------------- links are honoured

  /** Clock readings never go back. */
  ghost predicate Forward(run: seq<Event>) {
    && (forall a :: 0 <= a < |run| ==> run[a].now <= run[a].later)
    && (forall a, b :: 0 <= a < b < |run| ==> run[a].later <= run[b].now)
  }

  /** Issues among the calls from i up to m, and those for one player. */
  function Issues(run: seq<Event>, i: nat, m: nat): nat
    requires i <= m <= |run|
    decreases m
  {
    if m == i then 0 else Issues(run, i, m - 1) + if run[m - 1].Issue? then 1 else 0
  }

  function IssuesFor(run: seq<Event>, player: string, i: nat, m: nat): nat
    requires i <= m <= |run|
    decreases m
  {
    if m == i then 0
    else IssuesFor(run, player, i, m - 1) + if run[m - 1].Issue? && run[m - 1].player == player then 1 else 0
  }

  /** The entry is stored, with at most n newer ones, at most p of them pending links of its own player. */
  ghost predicate Stored(es: seq<Entry>, e: Entry, n: nat, p: nat) {
    exists i :: 0 <= i < |es| && es[i] == e && |es| - 1 - i <= n && PendingCount(es[i + 1..], e.player) <= p
  }

  /** Dropping other entries, or older ones, keeps an entry stored. */
  lemma DropStored(es: seq<Entry>, e: Entry, n: nat, p: nat, want: Entry -> bool, k: nat)
    requires Stored(es, e, n, p) && UniqueKeys(es)
    requires want(e) ==> forall i :: 0 <= i < |es| && es[i] == e ==> |KeysOf(es[..i], want)| >= k
    ensures Stored(Drop(es, want, k), e, n, p)
  {
    var i :| 0 <= i < |es| && es[i] == e && |es| - 1 - i <= n && PendingCount(es[i + 1..], e.player) <= p;
    var at, left := DropAround(es, i, want, k);
    var tail := Drop(es, want, k)[at + 1..];
    DropFewer(es[i + 1..], want, left, x => Pending(x, e.player));
    assert |tail| <= |es| - 1 - i;
  }

  lemma AliveStored(es: seq<Entry>, e: Entry, n: nat, p: nat, now: real)
    requires Stored(es, e, n, p) && UniqueKeys(es) && !Expired(e, now)
    ensures Stored(Alive(es, now), e, n, p)
  {
    DropStored(es, e, n, p, x => Expired(x, now), |es|);
  }

  /** A pending link with fewer than most - 1 newer ones of its player survives the player's cap. */
  lemma CapStored(es: seq<Entry>, e: Entry, n: nat, p: nat, player: string, most: int)
    requires Stored(es, e, n, p) && UniqueKeys(es) && !e.used && (player == e.player ==> p + 1 < most)
    ensures Stored(Drop(es, x => Pending(x, player), Excess(PendingCount(es, player), most)), e, n, p)
  {
    var k := Excess(PendingCount(es, player), most);
    if player == e.player {
      forall i | 0 <= i < |es| && es[i] == e ensures |KeysOf(es[..i], x => Pending(x, player))| >= k {
        KeysAround(es, i, x => Pending(x, player));
        var j :| 0 <= j < |es| && es[j] == e && |es| - 1 - j <= n && PendingCount(es[j + 1..], e.player) <= p;
        assert i == j;
      }
    }
    DropStored(es, e, n, p, x => Pending(x, player), k);
  }

  lemma NewestStored(es: seq<Entry>, e: Entry, n: nat, p: nat, most: nat)
    requires Stored(es, e, n, p) && n < most
    ensures Stored(Newest(es, most), e, n, p)
  {
    hide KeysOf;
    var i :| 0 <= i < |es| && es[i] == e && |es| - 1 - i <= n && PendingCount(es[i + 1..], e.player) <= p;
    var cut := if |es| > most then |es| - most else 0;
    var r := Newest(es, most);
    assert r == es[cut..] && cut <= i;
    assert r[i - cut] == e;
    assert r[i - cut + 1..] == es[i + 1..];
  }

  lemma SetCount(es: seq<Entry>, f: nat, x: Entry, want: Entry -> bool)
    requires f < |es|
    ensures |KeysOf(es[f := x], want)| <= |KeysOf(es, want)| + if want(x) && !want(es[f]) then 1 else 0
  {
    var a, b := es[..f], es[f + 1..];
    assert es == a + ([es[f]] + b) && es[f := x] == a + ([x] + b);
    KeysAppend(a, [es[f]] + b, want);
    KeysAppend(a, [x] + b, want);
    KeysAppend([es[f]], b, want);
    KeysAppend([x], b, want);
  }

  lemma SetStored(es: seq<Entry>, e: Entry, n: nat, p: nat, f: nat, x: Entry)
    requires Stored(es, e, n, p) && f < |es| && es[f].key != e.key
    ensures Stored(es[f := x], e, n, p + if Pending(x, e.player) && !Pending(es[f], e.player) then 1 else 0)
  {
    hide KeysOf;
    var i :| 0 <= i < |es| && es[i] == e && |es| - 1 - i <= n && PendingCount(es[i + 1..], e.player) <= p;
    var r := es[f := x];
    assert r[i] == e;
    if f < i {
      assert r[i + 1..] == es[i + 1..];
    } else {
      assert r[i + 1..] == es[i + 1..][f - i - 1 := x];
      SetCount(es[i + 1..], f - i - 1, x, y => Pending(y, e.player));
    }
  }

  lemma AppendStored(es: seq<Entry>, e: Entry, n: nat, p: nat, x: Entry)
    requires Stored(es, e, n, p)
    ensures Stored(es + [x], e, n + 1, p + if Pending(x, e.player) then 1 else 0)
  {
    var i :| 0 <= i < |es| && es[i] == e && |es| - 1 - i <= n && PendingCount(es[i + 1..], e.player) <= p;
    var r, tail := es + [x], es[i + 1..];
    assert r[i] == e && r[i + 1..] == tail + [x];
    KeysAppend(tail, [x], y => Pending(y, e.player));
  }

  lemma WeakerStored(es: seq<Entry>, e: Entry, n: nat, p: nat, n2: nat, p2: nat)
    requires Stored(es, e, n, p) && n <= n2 && p <= p2
    ensures Stored(es, e, n2, p2)
  {
    var i :| 0 <= i < |es| && es[i] == e && |es| - 1 - i <= n && PendingCount(es[i + 1..], e.player) <= p;
    assert PendingCount(es[i + 1..], e.player) <= p2;
  }

  lemma PutStored(es: seq<Entry>, e: Entry, n: nat, p: nat, x: Entry)
    requires Stored(es, e, n, p) && x.key != e.key
    ensures Stored(Put(es, x), e, n + 1, p + if x.player == e.player then 1 else 0)
  {
    hide Stored;
    var more := if x.player == e.player then 1 else 0;
    var f := Find(es, x.key);
    if f == |es| {
      AppendStored(es, e, n, p, x);
      WeakerStored(es + [x], e, n + 1, p + if Pending(x, e.player) then 1 else 0, n + 1, p + more);
    } else {
      SetStored(es, e, n, p, f, x);
      WeakerStored(es[f := x], e, n, p + if Pending(x, e.player) &&
        !Pending(es[f], e.player) then 1 else 0, n + 1, p + more);
    }
  }

  /** One call keeps an unspent link stored, unless it redeems it, outlives it or crowds it out. */
  lemma StepStored(hash: Hash, es: seq<Entry>, ev: Event, e: Entry, n: nat, p: nat)
    requires UniqueKeys(es) && Stored(es, e, n, p) && !e.used && ev.now <= ev.later < e.expires
    requires ev.Issue? ==> hash(ev.token) != e.key && n + 1 < HARD_CAP && (ev.player == e.player ==> p + 1 < ev.most)
    requires ev.Redeem? && ev.token != "" && Opens(Alive(es, ev.now), hash(ev.token), ev.later) ==>
               hash(ev.token) != e.key
    ensures Stored(Step(hash, es, ev), e, n + if ev.Issue? then 1 else 0, p + if ev.Issue? &&
              ev.player == e.player then 1 else 0)
  {
    hide Stored, Drop, PendingCount, Excess, Newest, Put, UniqueKeys;
    var alive := Alive(es, ev.now);
    AliveStored(es, e, n, p, ev.now);
    AliveMembers(es, ev.now);
    if ev.Issue? {
      CapStored(alive, e, n, p, ev.player, ev.most);
      NewestStored(Drop(alive, x => Pending(x, ev.player), Excess(PendingCount(alive, ev.player), ev.most)), e, n, p,
        HARD_CAP - 1);
      PutStored(Roomy(es, ev.player, ev.most, ev.now), e, n, p, Entry(hash(ev.token), ev.player,
        ev.later + ev.ttl as real, false));
    } else if ev.token != "" && Opens(alive, hash(ev.token), ev.later) {
      var f := Find(alive, hash(ev.token));
      SetStored(alive, e, n, p, f, alive[f].(used := true));
    }
  }

  /** No call before j has redeemed the link issued by call i, and the calls in between leave room for it: fewer issues
      than the store holds, and each issue for the same player allows more pending links than there have been since. */
  ghost predicate LeftAlone(hash: Hash, run: seq<Event>, i: nat, j: nat)
    requires i < j <= |run| && run[i].Issue?
  {
    && (forall k :: i < k < j && Outcome(hash, run, k) != None ==> hash(run[k].token) != hash(run[i].token))
    && Issues(run, i + 1, j) < HARD_CAP
    && (forall m :: i < m < j && run[m].Issue? && run[m].player == run[i].player ==>
          IssuesFor(run, run[i].player, i + 1, m) + 1 < run[m].most)
  }

  lemma {:induction false} FewerIssues(run: seq<Event>, i: nat, m: nat, j: nat)
    requires i <= m <= j <= |run|
    ensures Issues(run, i, m) <= Issues(run, i, j)
    decreases j
  {
    if m < j {
      FewerIssues(run, i, m, j - 1);
    }
  }

  lemma OpensMeans(hash: Hash, run: seq<Event>, m: nat)
    requires m < |run|
    ensures run[m].Redeem? && run[m].token != "" ==>
              (Opens(Alive(After(hash, run, m), run[m].now), hash(run[m].token), run[m].later) <==>
                Outcome(hash, run, m) != None)
  {
  }

  lemma AbsentBefore(hash: Hash, run: seq<Event>, i: nat)
    requires i < |run| && run[i].Issue? && Fresh(hash, run) && Sound(hash, run, i)
    ensures forall e :: e in After(hash, run, i) ==> e.key != hash(run[i].token)
  {
    forall e | e in After(hash, run, i) ensures e.key != hash(run[i].token) {
      var k :| 0 <= k < i && Made(hash, run[k], e);
    }
  }

  lemma PutNew(es: seq<Entry>, e: Entry)
    requires forall x :: x in es ==> x.key != e.key
    ensures Put(es, e) == es + [e] && Stored(es + [e], e, 0, 0)
  {
    assert forall i :: 0 <= i < |es| ==> es[i].key != e.key;
    assert Find(es, e.key) == |es|;
    var r := es + [e];
    assert r[|es|] == e && r[|es| + 1..] == [];
  }

  /** A fresh link is the newest entry. */
  lemma LandsLast(hash: Hash, es: seq<Entry>, ev: Event)
    requires UniqueKeys(es) && ev.Issue? && forall e :: e in es ==> e.key != hash(ev.token)
    ensures Stored(Step(hash, es, ev), Entry(hash(ev.token), ev.player, ev.later + ev.ttl as real, false), 0, 0)
  {
    hide Roomy, Stored, Put, UniqueKeys;
    RoomyMembers(es, ev.player, ev.most, ev.now);
    PutNew(Roomy(es, ev.player, ev.most, ev.now), Entry(hash(ev.token), ev.player, ev.later + ev.ttl as real, false));
  }

  lemma {:induction false} StaysStored(hash: Hash, run: seq<Event>, i: nat, j: nat, m: nat)
    requires Fresh(hash, run) && Forward(run) && i < m <= j < |run| && run[i].Issue? && LeftAlone(hash, run, i, j)
    requires run[j].later < run[i].later + run[i].ttl as real
    ensures var e := Entry(hash(run[i].token), run[i].player, run[i].later + run[i].ttl as real, false);
            Stored(After(hash, run, m), e, Issues(run, i + 1, m), IssuesFor(run, run[i].player, i + 1, m))
    decreases m
  {
    hide Stored, Step, Outcome, Alive;
    var e := Entry(hash(run[i].token), run[i].player, run[i].later + run[i].ttl as real, false);
    AlwaysSound(hash, run, m - 1);
    if m == i + 1 {
      AbsentBefore(hash, run, i);
      LandsLast(hash, After(hash, run, i), run[i]);
    } else {
      StaysStored(hash, run, i, j, m - 1);
      FewerIssues(run, i + 1, m, j);
      OpensMeans(hash, run, m - 1);
      StepStored(hash, After(hash, run, m - 1), run[m - 1], e, Issues(run, i + 1, m - 1), IssuesFor(run, e.player,
        i + 1, m - 1));
    }
  }

  /** A link redeemed before its expiry, not redeemed yet and not crowded out, opens for its player. */
  lemma LinkHonoured(hash: Hash, run: seq<Event>, i: nat, j: nat)
    requires Fresh(hash, run) && Forward(run) && i < j < |run| && run[i].Issue? && run[j].Redeem?
    requires run[j].token == run[i].token != "" && run[j].later < run[i].later + run[i].ttl as real
    requires LeftAlone(hash, run, i, j)
    ensures Outcome(hash, run, j) == Some(run[i].player)
  {
    var e := Entry(hash(run[i].token), run[i].player, run[i].later + run[i].ttl as real, false);
    var es := After(hash, run, j);
    StaysStored(hash, run, i, j, j);
    AlwaysSound(hash, run, j);
    var n, p := Issues(run, i + 1, j), IssuesFor(run, run[i].player, i + 1, j);
    AliveStored(es, e, n, p, run[j].now);
    AliveMembers(es, run[j].now);
    FoundBy(Alive(es, run[j].now), e, n, p);
  }

  lemma FoundBy(es: seq<Entry>, e: Entry, n: nat, p: nat)
    requires UniqueKeys(es) && Stored(es, e, n, p)
    ensures Find(es, e.key) < |es| && es[Find(es, e.key)] == e
  {
    var i :| 0 <= i < |es| && es[i] == e && |es| - 1 - i <= n && PendingCount(es[i + 1..], e.player) <= p;
    assert Find(es, e.key) == i;
  }
}
