/** Replay protection of signed requests (route/auth/middleware.go): the expiring nonce store and
    the timestamp window around it.  Times are nanoseconds. */
module NonceStore {
  // ---- the store against its unbounded history --------------------------------------------

  /** One accepted key and the clock reading at which it was accepted. */
  datatype Acceptance = Acceptance(key: string, at: int)

  datatype Entry = Entry(key: string, expiresAt: int)

  /** The reference: look the key up in everything that was ever accepted. */
  ghost predicate Fresh(history: seq<Acceptance>, ttl: int, key: string, now: int) {
    forall i :: 0 <= i < |history| && history[i].key == key ==> history[i].at + ttl <= now
  }

  class Store {
    const ttl: int
    var seen: map<string, int>
    var order: seq<Entry>
    ghost var history: seq<Acceptance>
    ghost var clock: int
    /** How many acceptances have left the queue. */
    ghost var evicted: nat

    constructor (ttl: int)
      ensures this.ttl == ttl && Valid() && history == []
    {
      this.ttl := ttl;
      seen, order, history, clock, evicted := map[], [], [], 0, 0;
    }

    ghost predicate Valid()
      reads this
    {
      Consistent(seen, order, history, ttl, evicted, clock)
    }

    /** evictExpiredLocked: the expired entries are a prefix of the queue. */
    method EvictExpired(now: int)
      requires Valid() && (history == [] || clock <= now)
      modifies this`seen, this`order, this`clock, this`evicted
      ensures Valid() && clock == now && Unexpired(order, now)
    {
      var n := ForgetExpired(now);
      SuffixRemembers(order, history, ttl, evicted, clock, n, now);
      SuffixUnexpired(order, n, now);
      assert Consistent(seen, order[n..], history, ttl, evicted + n, now);
      order := order[n..];
      evicted := evicted + n;
      clock := now;
    }

    /** Removes the expired entries from the map and returns how many there are. */
    method ForgetExpired(now: int) returns (n: nat)
      requires Agrees(seen, order)
      modifies this`seen
      ensures n <= |order| && Agrees(seen, order[n..])
      ensures forall i :: 0 <= i < n ==> order[i].expiresAt <= now
      ensures n < |order| ==> order[n].expiresAt > now
    {
      n := 0;
      while n < |order| && order[n].expiresAt <= now
        invariant n <= |order|
        invariant forall i :: 0 <= i < n ==> order[i].expiresAt <= now
        invariant Agrees(seen, order[n..])
      {
        ghost var rest := order[n..];
        DropFirst(seen, rest);
        assert rest[0] == order[n] && rest[1..] == order[n + 1..];
        var entry := order[n];
        if entry.key in seen && seen[entry.key] == entry.expiresAt {
          seen := seen - {entry.key};
        }
        n := n + 1;
      }
    }

    /** Under non-decreasing clock readings the bounded store answers exactly like the unbounded
        history: a key is accepted if and only if no acceptance of it is less than a ttl old. */
    method Remember(key: string, now: int) returns (accepted: bool)
      requires Valid() && (history == [] || clock <= now)
      modifies this
      ensures Valid() && clock == now
      ensures accepted <==> Fresh(old(history), ttl, key, now)
      ensures history == old(history) + if accepted then [Acceptance(key, now)] else []
    {
      EvictExpired(now);
      FreshIfUnseen(seen, order, history, ttl, evicted, now, key);
      if key in seen && seen[key] > now {
        accepted := false;
        return;
      }
      Accept(key, now);
      accepted := true;
    }

    method Accept(key: string, now: int)
      requires Valid() && clock == now && key !in seen && Fresh(history, ttl, key, now)
      modifies this`seen, this`order, this`history
      ensures Valid() && history == old(history) + [Acceptance(key, now)]
    {
      var expiresAt := now + ttl;
      AcceptKeeps(seen, order, history, ttl, evicted, now, key);
      seen := seen[key := expiresAt];
      order := order + [Entry(key, expiresAt)];
      history := history + [Acceptance(key, now)];
    }
  }

  ghost predicate Consistent(seen: map<string, int>, order: seq<Entry>, history: seq<Acceptance>, ttl: int, evicted: nat, clock: int) {
    Agrees(seen, order) && Remembers(order, history, ttl, evicted, clock) && Spaced(history, ttl)
  }

  lemma AcceptKeeps(seen: map<string, int>, order: seq<Entry>, history: seq<Acceptance>, ttl: int, evicted: nat, now: int, key: string)
    requires Consistent(seen, order, history, ttl, evicted, now) && key !in seen && Fresh(history, ttl, key, now)
    ensures Consistent(seen[key := now + ttl], order + [Entry(key, now + ttl)], history + [Acceptance(key, now)], ttl, evicted, now)
  {
    Append(seen, order, history, ttl, evicted, now, key);
    SpacedSnoc(history, ttl, Acceptance(key, now));
  }

  /** The map a queue stands for. */
  function ToMap(order: seq<Entry>): map<string, int> {
    if order == [] then map[] else ToMap(order[1..])[order[0].key := order[0].expiresAt]
  }

  /** The queue is sorted by expiry, has distinct keys and holds the same entries as the map. */
  ghost predicate Agrees(seen: map<string, int>, order: seq<Entry>) {
    Queue(order) && seen == ToMap(order)
  }

  /** Each entry expires no later than those behind it and has a key of its own. */
  ghost predicate Queue(order: seq<Entry>) {
    order != [] ==> Leads(order[0], order[1..]) && Queue(order[1..])
  }

  ghost predicate Leads(e: Entry, rest: seq<Entry>) {
    forall i :: 0 <= i < |rest| ==> e.expiresAt <= rest[i].expiresAt && e.key != rest[i].key
  }

  lemma {:induction false} QueueMeaning(order: seq<Entry>)
    ensures Queue(order) <==> QueueSorted(order) && DistinctKeys(order)
  {
    if order != [] {
      var rest := order[1..];
      QueueMeaning(rest);
      assert forall i :: 0 <= i < |rest| ==> rest[i] == order[i + 1];
      if Leads(order[0], rest) && QueueSorted(rest) && DistinctKeys(rest) {
        forall i, j | 0 <= i < j < |order| ensures order[i].expiresAt <= order[j].expiresAt && order[i].key != order[j].key {
          assert order[j] == rest[j - 1];
          if i > 0 { assert order[i] == rest[i - 1]; }
        }
      }
    }
  }

  lemma {:induction false} ToMapHolds(order: seq<Entry>, key: string)
    requires DistinctKeys(order)
    ensures key in ToMap(order) <==> exists i :: 0 <= i < |order| && order[i].key == key
    ensures forall i :: 0 <= i < |order| && order[i].key == key ==> ToMap(order)[key] == order[i].expiresAt
  {
    if order != [] {
      var rest := order[1..];
      assert forall i :: 0 <= i < |rest| ==> rest[i] == order[i + 1];
      ToMapHolds(rest, key);
    }
  }

  lemma {:induction false} ToMapAppend(order: seq<Entry>, e: Entry)
    requires DistinctKeys(order + [e])
    ensures ToMap(order + [e]) == ToMap(order)[e.key := e.expiresAt]
  {
    if order == [] {
      assert (order + [e])[1..] == [];
    } else {
      var all, rest := order + [e], order[1..];
      assert all[1..] == rest + [e];
      assert forall i :: 0 <= i < |rest + [e]| ==> (rest + [e])[i] == all[i + 1];
      ToMapAppend(rest, e);
      assert order[0].key == all[0].key && e.key == all[|order|].key;
    }
  }

  /** The queue entries of a list of acceptances. */
  ghost function Entries(history: seq<Acceptance>, ttl: int): (r: seq<Entry>)
    ensures |r| == |history|
  {
    if history == [] then []
    else
      var last := history[|history| - 1];
      Entries(history[..|history| - 1], ttl) + [Entry(last.key, last.at + ttl)]
  }

  lemma {:induction false} EntriesAt(history: seq<Acceptance>, ttl: int, i: nat)
    requires i < |history|
    ensures Entries(history, ttl)[i] == Entry(history[i].key, history[i].at + ttl)
  {
    if i < |history| - 1 {
      EntriesAt(history[..|history| - 1], ttl, i);
    }
  }

  lemma EntriesDrop(history: seq<Acceptance>, ttl: int, n: nat)
    requires n <= |history|
    ensures Entries(history[n..], ttl) == Entries(history, ttl)[n..]
  {
    forall i | 0 <= i < |history| - n ensures Entries(history[n..], ttl)[i] == Entries(history, ttl)[n..][i] {
      EntriesAt(history[n..], ttl, i);
      EntriesAt(history, ttl, n + i);
    }
  }

  /** The queue is the history without its first `evicted` acceptances, which have all expired. */
  ghost predicate Remembers(order: seq<Entry>, history: seq<Acceptance>, ttl: int, evicted: nat, clock: int) {
    && evicted <= |history|
    && order == Entries(history[evicted..], ttl)
    && (forall i :: 0 <= i < evicted ==> history[i].at + ttl <= clock)
    && (forall i :: 0 <= i < |history| ==> history[i].at <= clock)
  }

  ghost predicate Unexpired(order: seq<Entry>, now: int) {
    forall i :: 0 <= i < |order| ==> order[i].expiresAt > now
  }

  lemma DropFirst(seen: map<string, int>, order: seq<Entry>)
    requires Agrees(seen, order) && order != []
    ensures order[0].key in seen && seen[order[0].key] == order[0].expiresAt
    ensures Agrees(seen - {order[0].key}, order[1..])
  {
    QueueMeaning(order[1..]);
    ToMapHolds(order[1..], order[0].key);
  }

  lemma SuffixRemembers(order: seq<Entry>, history: seq<Acceptance>, ttl: int, evicted: nat, clock: int, n: nat, now: int)
    requires Remembers(order, history, ttl, evicted, clock) && n <= |order| && (history == [] || clock <= now)
    requires forall i :: 0 <= i < n ==> order[i].expiresAt <= now
    ensures Remembers(order[n..], history, ttl, evicted + n, now)
  {
    EntriesDrop(history[evicted..], ttl, n);
    assert history[evicted..][n..] == history[evicted + n..];
    forall i | 0 <= i < evicted + n ensures history[i].at + ttl <= now {
      if i >= evicted {
        EntriesAt(history[evicted..], ttl, i - evicted);
      }
    }
  }

  lemma SuffixUnexpired(order: seq<Entry>, n: nat, now: int)
    requires Queue(order) && n <= |order| && (n < |order| ==> order[n].expiresAt > now)
    ensures Unexpired(order[n..], now)
  {
    QueueMeaning(order);
  }

  lemma FreshIfUnseen(seen: map<string, int>, order: seq<Entry>, history: seq<Acceptance>, ttl: int, evicted: nat, now: int, key: string)
    requires Agrees(seen, order) && Remembers(order, history, ttl, evicted, now) && Unexpired(order, now)
    ensures key in seen <==> !Fresh(history, ttl, key, now)
    ensures key in seen ==> seen[key] > now
  {
    QueueMeaning(order);
    ToMapHolds(order, key);
    if key in seen {
      var i :| 0 <= i < |order| && order[i].key == key;
      EntriesAt(history[evicted..], ttl, i);
      assert history[evicted + i].key == key && history[evicted + i].at + ttl > now;
    } else {
      forall i | 0 <= i < |history| && history[i].key == key ensures history[i].at + ttl <= now {
        if i >= evicted {
          EntriesAt(history[evicted..], ttl, i - evicted);
        }
      }
    }
  }

  lemma EntriesSnoc(history: seq<Acceptance>, ttl: int, a: Acceptance)
    ensures Entries(history + [a], ttl) == Entries(history, ttl) + [Entry(a.key, a.at + ttl)]
  {
    assert (history + [a])[..|history|] == history;
  }

  lemma AppendRemembers(order: seq<Entry>, history: seq<Acceptance>, ttl: int, evicted: nat, a: Acceptance)
    requires Remembers(order, history, ttl, evicted, a.at)
    ensures Remembers(order + [Entry(a.key, a.at + ttl)], history + [a], ttl, evicted, a.at)
  {
    EntriesSnoc(history[evicted..], ttl, a);
    assert (history + [a])[evicted..] == history[evicted..] + [a];
  }

  lemma Append(seen: map<string, int>, order: seq<Entry>, history: seq<Acceptance>, ttl: int, evicted: nat, now: int, key: string)
    requires Agrees(seen, order) && Remembers(order, history, ttl, evicted, now) && key !in seen
    ensures Agrees(seen[key := now + ttl], order + [Entry(key, now + ttl)])
    ensures Remembers(order + [Entry(key, now + ttl)], history + [Acceptance(key, now)], ttl, evicted, now)
  {
    forall i | 0 <= i < |order| ensures order[i].expiresAt <= now + ttl {
      EntriesAt(history[evicted..], ttl, i);
    }
    AppendRemembers(order, history, ttl, evicted, Acceptance(key, now));
    AppendAgrees(seen, order, Entry(key, now + ttl));
  }

  lemma AppendAgrees(seen: map<string, int>, order: seq<Entry>, e: Entry)
    requires Agrees(seen, order) && e.key !in seen && forall i :: 0 <= i < |order| ==> order[i].expiresAt <= e.expiresAt
    ensures Agrees(seen[e.key := e.expiresAt], order + [e])
  {
    QueueMeaning(order);
    ToMapHolds(order, e.key);
    assert DistinctKeys(order + [e]);
    ToMapAppend(order, e);
    QueueMeaning(order + [e]);
  }

  ghost predicate QueueSorted(order: seq<Entry>) {
    forall i, j :: 0 <= i < j < |order| ==> order[i].expiresAt <= order[j].expiresAt
  }

  ghost predicate DistinctKeys(order: seq<Entry>) {
    forall i, j :: 0 <= i < j < |order| ==> order[i].key != order[j].key
  }

  /** Acceptances are in clock order, and acceptances of the same key are at least `ttl` apart. */
  ghost predicate Spaced(history: seq<Acceptance>, ttl: int) {
    history != [] ==>
      && Spaced(history[..|history| - 1], ttl)
      && Follows(history[..|history| - 1], history[|history| - 1], ttl)
  }

  ghost predicate Follows(history: seq<Acceptance>, a: Acceptance, ttl: int) {
    forall i :: 0 <= i < |history| ==> history[i].at <= a.at && (history[i].key == a.key ==> history[i].at + ttl <= a.at)
  }

  lemma {:induction false} SpacedPairs(history: seq<Acceptance>, ttl: int, i: nat, j: nat)
    requires Spaced(history, ttl) && i < j < |history|
    ensures history[i].at <= history[j].at && (history[i].key == history[j].key ==> history[i].at + ttl <= history[j].at)
  {
    if j < |history| - 1 {
      SpacedPairs(history[..|history| - 1], ttl, i, j);
    }
  }

  lemma SpacedSnoc(history: seq<Acceptance>, ttl: int, a: Acceptance)
    requires Spaced(history, ttl) && Fresh(history, ttl, a.key, a.at) && forall i :: 0 <= i < |history| ==> history[i].at <= a.at
    ensures Spaced(history + [a], ttl)
  {
    assert (history + [a])[..|history|] == history;
  }
}
