/** Terminal results kept for a while: bounded, replaced by id, and expiring. */
module RecentResults {
  import opened Common

  datatype Finished<T> = Finished(id: string, owner: Option<string>, value: T, recorded: nat)

  datatype Op<T> = Record(entry: Finished<T>) | Prune(now: nat)

  type History<T> = seq<Op<T>>

  function TimeOf<T>(op: Op<T>): nat {
    match op
    case Record(entry) => entry.recorded
    case Prune(now) => now
  }

  /** Recording reads a clock that never runs backwards; pruning may be asked
      about any moment. */
  ghost predicate Ordered<T>(h: History<T>) {
    forall i, j :: 0 <= i < j < |h| && h[i].Record? && h[j].Record? ==> h[i].entry.recorded <= h[j].entry.recorded
  }

  predicate Expired<T>(e: Finished<T>, now: nat, retention: Option<nat>) {
    retention.Some? && (if now >= e.recorded then now - e.recorded else 0) >= retention.value
  }

  // ----- What a history keeps -----

  /** Ends the life of a record: it is expired by then, or its id is recorded again. */
  predicate Displaces<T>(op: Op<T>, e: Finished<T>, retention: Option<nat>) {
    Expired(e, TimeOf(op), retention) || (op.Record? && op.entry.id == e.id)
  }

  ghost predicate Kept<T>(h: History<T>, i: nat, retention: Option<nat>)
    requires i < |h|
  {
    h[i].Record? && forall j :: i < j < |h| ==> !Displaces(h[j], h[i].entry, retention)
  }

  /** The latest unexpired record of each id among the first n operations. */
  ghost function Collect<T>(h: History<T>, n: nat, retention: Option<nat>): seq<Finished<T>>
    requires n <= |h|
  {
    if n == 0 then []
    else Collect(h, n - 1, retention) + if Kept(h, n - 1, retention) then [h[n - 1].entry] else []
  }

  ghost function Survivors<T>(h: History<T>, retention: Option<nat>): seq<Finished<T>> {
    Collect(h, |h|, retention)
  }

  function LastN<X>(s: seq<X>, n: nat): seq<X> {
    if |s| <= n then s else s[|s| - n..]
  }

  function Unexpired<T>(s: seq<Finished<T>>, now: nat, retention: Option<nat>): seq<Finished<T>> {
    if s == [] then []
    else Unexpired(s[..|s| - 1], now, retention) + if Expired(s[|s| - 1], now, retention) then [] else [s[|s| - 1]]
  }

  function WithoutId<T>(s: seq<Finished<T>>, id: string): seq<Finished<T>> {
    if s == [] then []
    else WithoutId(s[..|s| - 1], id) + if s[|s| - 1].id == id then [] else [s[|s| - 1]]
  }

  ghost predicate UniqueIds<T>(s: seq<Finished<T>>) {
    forall i, j :: 0 <= i < j < |s| ==> s[i].id != s[j].id
  }

  ghost predicate Sorted<T>(s: seq<Finished<T>>) {
    forall i, j :: 0 <= i < j < |s| ==> s[i].recorded <= s[j].recorded
  }

  ghost predicate FromHistory<T>(h: History<T>, n: nat, retention: Option<nat>, e: Finished<T>)
    requires n <= |h|
  {
    exists k :: 0 <= k < n && Kept(h, k, retention) && h[k].entry == e
  }

  /** What the deque holds never repeats an id and is sorted by time; this is what
      lets expiry look for a partition point. */
  lemma {:induction false} CollectShape<T>(h: History<T>, n: nat, retention: Option<nat>)
    requires Ordered(h) && n <= |h|
    ensures var s := Collect(h, n, retention);
      && UniqueIds(s) && Sorted(s)
      && forall i :: 0 <= i < |s| ==> FromHistory(h, n, retention, s[i])
  {
    if n > 0 {
      CollectShape(h, n - 1, retention);
      var s := Collect(h, n - 1, retention);
      forall i | 0 <= i < |s|
        ensures FromHistory(h, n, retention, s[i])
        ensures Kept(h, n - 1, retention)
            ==> s[i].id != h[n - 1].entry.id && s[i].recorded <= h[n - 1].entry.recorded
      {
        EarlierRecord(h, n, retention, s[i]);
      }
      if Kept(h, n - 1, retention) {
        assert FromHistory(h, n, retention, h[n - 1].entry);
      }
    }
  }

  lemma EarlierRecord<T>(h: History<T>, n: nat, retention: Option<nat>, e: Finished<T>)
    requires Ordered(h) && 0 < n <= |h| && FromHistory(h, n - 1, retention, e)
    ensures FromHistory(h, n, retention, e)
    ensures Kept(h, n - 1, retention) ==> e.id != h[n - 1].entry.id && e.recorded <= h[n - 1].entry.recorded
  {
    var k :| 0 <= k < n - 1 && Kept(h, k, retention) && h[k].entry == e;
    assert !Displaces(h[n - 1], h[k].entry, retention);
  }

  function Filter<T>(s: seq<Finished<T>>, op: Op<T>, retention: Option<nat>): seq<Finished<T>> {
    var live := Unexpired(s, TimeOf(op), retention);
    if op.Record? then WithoutId(live, op.entry.id) else live
  }

  lemma FilterSnoc<T>(s: seq<Finished<T>>, e: Finished<T>, op: Op<T>, retention: Option<nat>)
    ensures Filter(s + [e], op, retention)
         == Filter(s, op, retention) + if Displaces(op, e, retention) then [] else [e]
  {
    assert (s + [e])[..|s|] == s;
    var live := Unexpired(s, TimeOf(op), retention);
    if Expired(e, TimeOf(op), retention) {
      assert Unexpired(s + [e], TimeOf(op), retention) == live;
    } else {
      assert Unexpired(s + [e], TimeOf(op), retention) == live + [e];
      assert (live + [e])[..|live|] == live;
    }
  }

  /** One more operation filters what was collected before. */
  lemma {:induction false} CollectStep<T>(h: History<T>, op: Op<T>, n: nat, retention: Option<nat>)
    requires n <= |h|
    ensures Collect(h + [op], n, retention) == Filter(Collect(h, n, retention), op, retention)
  {
    if n > 0 {
      CollectStep(h, op, n - 1, retention);
      KeptStep(h, op, n - 1, retention);
      var before := Collect(h, n - 1, retention);
      if Kept(h, n - 1, retention) {
        FilterSnoc(before, h[n - 1].entry, op, retention);
      } else {
        assert Collect(h, n, retention) == before;
      }
    }
  }

  lemma KeptStep<T>(h: History<T>, op: Op<T>, i: nat, retention: Option<nat>)
    requires i < |h|
    ensures (h + [op])[i] == h[i]
    ensures Kept(h + [op], i, retention)
       <==> (Kept(h, i, retention) && !Displaces(op, h[i].entry, retention))
  {
    assert forall j :: i < j < |h| ==> (h + [op])[j] == h[j];
    assert (h + [op])[|h|] == op;
  }

  /** The simple history, one operation at a time. */
  lemma SurvivorsStep<T>(h: History<T>, op: Op<T>, retention: Option<nat>)
    ensures Survivors(h + [op], retention)
         == Filter(Survivors(h, retention), op, retention) + if op.Record? then [op.entry] else []
  {
    CollectStep(h, op, |h|, retention);
    assert (h + [op])[|h|] == op;
  }

  // ----- Bounding commutes with expiring and replacing -----

  /** On a sequence sorted by time the expired entries come first: the index
      partition_point finds. */
  function ExpiredPrefix<T>(s: seq<Finished<T>>, now: nat, retention: Option<nat>): (k: nat)
    requires Sorted(s)
    ensures k <= |s|
    ensures forall j :: 0 <= j < k ==> Expired(s[j], now, retention)
    ensures forall j :: k <= j < |s| ==> !Expired(s[j], now, retention)
  {
    if s == [] || !Expired(s[0], now, retention) then 0 else 1 + ExpiredPrefix(s[1..], now, retention)
  }

  lemma {:induction false} UnexpiredIsSuffix<T>(s: seq<Finished<T>>, k: nat, now: nat, retention: Option<nat>)
    requires k <= |s|
    requires forall j :: 0 <= j < k ==> Expired(s[j], now, retention)
    requires forall j :: k <= j < |s| ==> !Expired(s[j], now, retention)
    ensures Unexpired(s, now, retention) == s[k..]
  {
    if k < |s| {
      UnexpiredIsSuffix(s[..|s| - 1], k, now, retention);
    } else if s != [] {
      UnexpiredIsSuffix(s[..|s| - 1], k - 1, now, retention);
    }
  }

  lemma PrefixOfLast<T>(s: seq<Finished<T>>, cut: nat, now: nat, retention: Option<nat>)
    requires Sorted(s) && cut <= |s|
    ensures Sorted(s[cut..])
    ensures var k := ExpiredPrefix(s, now, retention);
      ExpiredPrefix(s[cut..], now, retention) == if k > cut then k - cut else 0
  {
    var kept := s[cut..];
    assert forall j :: 0 <= j < |kept| ==> kept[j] == s[cut + j];
    var k := ExpiredPrefix(s, now, retention);
    if k > cut {
      assert kept[k - cut - 1] == s[k - 1];
    }
    if cut <= k < |s| {
      assert kept[k - cut] == s[k];
    } else if k < cut < |s| {
      assert kept[0] == s[cut];
    }
  }

  /** Cutting at one place and then up to another is cutting at the later one. */
  lemma SuffixesMeet<X>(s: seq<X>, cut: nat, k: nat, limit: nat)
    requires k <= |s| && cut == if |s| <= limit then 0 else |s| - limit
    ensures s[cut..][if k > cut then k - cut else 0..] == LastN(s[k..], limit)
  {
    if k > cut {
      assert s[cut..][k - cut..] == s[k..];
      assert |s[k..]| <= limit;
    } else {
      assert s[cut..][0..] == s[cut..];
      assert s[k..][cut - k..] == s[cut..];
    }
  }

  lemma ExpireLast<T>(s: seq<Finished<T>>, limit: nat, now: nat, retention: Option<nat>)
    requires Sorted(s)
    ensures Sorted(LastN(s, limit))
    ensures var kept := LastN(s, limit);
      kept[ExpiredPrefix(kept, now, retention)..] == LastN(Unexpired(s, now, retention), limit)
  {
    var cut := if |s| <= limit then 0 else |s| - limit;
    var k := ExpiredPrefix(s, now, retention);
    assert s[0..] == s;
    assert LastN(s, limit) == s[cut..];
    UnexpiredIsSuffix(s, k, now, retention);
    PrefixOfLast(s, cut, now, retention);
    SuffixesMeet(s, cut, k, limit);
  }

  lemma {:induction false} WithoutIdAppend<T>(a: seq<Finished<T>>, b: seq<Finished<T>>, id: string)
    ensures WithoutId(a + b, id) == WithoutId(a, id) + WithoutId(b, id)
  {
    if b == [] {
      assert a + b == a;
    } else {
      assert (a + b)[..|a + b| - 1] == a + b[..|b| - 1];
      WithoutIdAppend(a, b[..|b| - 1], id);
    }
  }

  /** Replacing removes at most one entry. */
  lemma {:induction false} WithoutIdSize<T>(s: seq<Finished<T>>, id: string)
    requires UniqueIds(s)
    ensures |WithoutId(s, id)| >= |s| - 1
    ensures (forall i :: 0 <= i < |s| ==> s[i].id != id) ==> WithoutId(s, id) == s
  {
    if s != [] {
      WithoutIdSize(s[..|s| - 1], id);
    }
  }

  lemma LastNAppend<X>(a: seq<X>, b: seq<X>, n: nat)
    requires |b| >= n
    ensures LastN(a + b, n) == LastN(b, n)
  {
  }

  lemma ReplaceLast<T>(s: seq<Finished<T>>, limit: nat, e: Finished<T>)
    requires UniqueIds(s)
    ensures LastN(WithoutId(LastN(s, limit), e.id) + [e], limit) == LastN(WithoutId(s, e.id) + [e], limit)
  {
    var kept := LastN(s, limit);
    if |s| > limit {
      var front := s[..|s| - limit];
      assert s == front + kept;
      WithoutIdAppend(front, kept, e.id);
      WithoutIdSize(kept, e.id);
      assert WithoutId(s, e.id) + [e] == WithoutId(front, e.id) + (WithoutId(kept, e.id) + [e]);
      LastNAppend(WithoutId(front, e.id), WithoutId(kept, e.id) + [e], limit);
    }
  }

  lemma {:induction false} UnexpiredShape<T>(s: seq<Finished<T>>, now: nat, retention: Option<nat>)
    requires UniqueIds(s) && Sorted(s)
    ensures UniqueIds(Unexpired(s, now, retention))
  {
    UnexpiredIsSuffix(s, ExpiredPrefix(s, now, retention), now, retention);
  }

  /** Draining the expired prefix: what pruning does to the deque. */
  lemma PrunedLast<T>(h: History<T>, limit: nat, retention: Option<nat>, now: nat)
    requires Ordered(h)
    ensures var entries := LastN(Survivors(h, retention), limit);
      && Sorted(entries)
      && entries[ExpiredPrefix(entries, now, retention)..]
         == LastN(Unexpired(Survivors(h, retention), now, retention), limit)
    ensures Survivors(h + [Prune(now)], retention) == Unexpired(Survivors(h, retention), now, retention)
    ensures Ordered(h + [Prune(now)])
  {
    CollectShape(h, |h|, retention);
    ExpireLast(Survivors(h, retention), limit, now, retention);
    SurvivorsStep<T>(h, Prune(now), retention);
  }

  /** Expire, replace, append, trim: what recording does to the deque. */
  lemma RecordedLast<T>(h: History<T>, limit: nat, retention: Option<nat>, e: Finished<T>)
    requires Ordered(h)
    ensures var live := LastN(Unexpired(Survivors(h, retention), e.recorded, retention), limit);
      LastN(WithoutId(live, e.id) + [e], limit) == LastN(Survivors(h + [Record(e)], retention), limit)
  {
    var s := Survivors(h, retention);
    CollectShape(h, |h|, retention);
    UnexpiredShape(s, e.recorded, retention);
    ReplaceLast(Unexpired(s, e.recorded, retention), limit, e);
    SurvivorsStep(h, Record(e), retention);
  }

  // ----- Lookup -----

  function Lookup<T>(s: seq<Finished<T>>, id: string, owner: Option<string>): Option<T> {
    if s == [] then None
    else if s[0].id == id && s[0].owner == owner then Some(s[0].value)
    else Lookup(s[1..], id, owner)
  }

  lemma {:induction false} LookupFinds<T>(s: seq<Finished<T>>, id: string, owner: Option<string>, i: nat)
    requires UniqueIds(s) && i < |s| && s[i].id == id && s[i].owner == owner
    ensures Lookup(s, id, owner) == Some(s[i].value)
  {
    if i > 0 {
      assert s[0].id != s[i].id;
      LookupFinds(s[1..], id, owner, i - 1);
    }
  }

  lemma {:induction false} LookupWhere<T>(s: seq<Finished<T>>, id: string, owner: Option<string>) returns (i: nat)
    requires Lookup(s, id, owner).Some?
    ensures i < |s| && s[i].id == id && s[i].owner == owner && Lookup(s, id, owner) == Some(s[i].value)
  {
    if s[0].id == id && s[0].owner == owner {
      i := 0;
    } else {
      i := LookupWhere(s[1..], id, owner);
      i := i + 1;
    }
  }

  lemma {:induction false} CollectPosition<T>(h: History<T>, n: nat, i: nat, retention: Option<nat>)
    requires i < n <= |h| && Kept(h, i, retention)
    ensures |Collect(h, i, retention)| < |Collect(h, n, retention)|
    ensures Collect(h, n, retention)[|Collect(h, i, retention)|] == h[i].entry
  {
    if i < n - 1 {
      CollectPosition(h, n - 1, i, retention);
    }
  }

  /** Record i of the history is kept and at most `limit` kept records are as late. */
  ghost predicate Visible<T>(h: History<T>, i: nat, limit: nat, retention: Option<nat>)
    requires i < |h|
  {
    Kept(h, i, retention) && |Survivors(h, retention)| - |Collect(h, i, retention)| <= limit
  }

  ghost predicate Answers<T>(
    h: History<T>, i: nat, limit: nat, retention: Option<nat>, id: string, owner: Option<string>)
  {
    i < |h| && Visible(h, i, limit, retention) && h[i].entry.id == id && h[i].entry.owner == owner
  }

  lemma LookupFromHistory<T>(h: History<T>, limit: nat, retention: Option<nat>, id: string, owner: Option<string>)
    returns (i: nat)
    requires Ordered(h) && Lookup(LastN(Survivors(h, retention), limit), id, owner).Some?
    ensures Answers(h, i, limit, retention, id, owner)
    ensures Lookup(LastN(Survivors(h, retention), limit), id, owner) == Some(h[i].entry.value)
  {
    var s := Survivors(h, retention);
    var kept := LastN(s, limit);
    CollectShape(h, |h|, retention);
    var j := LookupWhere(kept, id, owner);
    var at := |s| - |kept| + j;
    assert kept[j] == s[at] && FromHistory(h, |h|, retention, s[at]);
    i :| 0 <= i < |h| && Kept(h, i, retention) && h[i].entry == s[at];
    CollectPosition(h, |h|, i, retention);
    var position := |Collect(h, i, retention)|;
    assert s[position].id == s[at].id;
    assert position == at;
  }

  lemma LookupOfVisible<T>(h: History<T>, limit: nat, retention: Option<nat>, id: string, owner: Option<string>, i: nat)
    requires Ordered(h) && Answers(h, i, limit, retention, id, owner)
    ensures Lookup(LastN(Survivors(h, retention), limit), id, owner) == Some(h[i].entry.value)
  {
    var s := Survivors(h, retention);
    CollectShape(h, |h|, retention);
    CollectPosition(h, |h|, i, retention);
    LookupInLast(s, limit, id, owner, |Collect(h, i, retention)|);
  }

  lemma LookupInLast<T>(s: seq<Finished<T>>, limit: nat, id: string, owner: Option<string>, at: nat)
    requires UniqueIds(s) && |s| - limit <= at < |s| && s[at].id == id && s[at].owner == owner
    ensures Lookup(LastN(s, limit), id, owner) == Some(s[at].value)
  {
    var kept := LastN(s, limit);
    var cut := |s| - |kept|;
    forall i, j | 0 <= i < j < |kept| ensures kept[i].id != kept[j].id {
      assert kept[i] == s[cut + i] && kept[j] == s[cut + j];
    }
    assert kept[at - cut] == s[at];
    LookupFinds(kept, id, owner, at - cut);
  }

  /** An owned lookup answers from the one visible record of that id, if it is the
      owner's. */
  lemma LookupAgreesWithHistory<T>(h: History<T>, limit: nat, retention: Option<nat>, id: string,
                                   owner: Option<string>, value: T)
    requires Ordered(h)
    ensures Lookup(LastN(Survivors(h, retention), limit), id, owner) == Some(value)
       <==> exists i: nat :: Answers(h, i, limit, retention, id, owner) && h[i].entry.value == value
  {
    if Lookup(LastN(Survivors(h, retention), limit), id, owner).Some? {
      var i := LookupFromHistory(h, limit, retention, id, owner);
    }
    forall i: nat | Answers(h, i, limit, retention, id, owner)
      ensures Lookup(LastN(Survivors(h, retention), limit), id, owner) == Some(h[i].entry.value)
    {
      LookupOfVisible(h, limit, retention, id, owner, i);
    }
  }

  /** The retention has not passed since the result was recorded. */
  predicate StillGood<T>(e: Finished<T>, now: nat, retention: Option<nat>) {
    retention.None? || (retention.value > 0 && now < e.recorded + retention.value)
  }

  /** A result just recorded is found, by its owner alone, until the retention has passed
      since; without a retention it is found at any time, and with a limit of zero never. */
  lemma FoundUntilItExpires<T>(
    h: History<T>, e: Finished<T>, owner: Option<string>, now: nat, limit: nat, retention: Option<nat>)
    requires Ordered(h + [Record(e)])
    ensures Lookup(LastN(Survivors(h + [Record(e)] + [Prune(now)], retention), limit), e.id, owner) ==
      if limit > 0 && owner == e.owner && StillGood(e, now, retention) then Some(e.value) else None
  {
    var recorded := h + [Record(e)];
    SurvivorsStep(h, Record(e), retention);
    CollectShape(recorded, |recorded|, retention);
    SurvivorsStep<T>(recorded, Prune(now), retention);
    assert Survivors(recorded + [Prune(now)], retention) == Unexpired(Survivors(recorded, retention), now, retention);
    LastIsFound(Survivors(recorded, retention), e, owner, now, limit, retention);
  }

  lemma LastIsFound<T>(
    s: seq<Finished<T>>, e: Finished<T>, owner: Option<string>, now: nat, limit: nat, retention: Option<nat>)
    requires UniqueIds(s) && Sorted(s) && s != [] && s[|s| - 1] == e
    ensures Lookup(LastN(Unexpired(s, now, retention), limit), e.id, owner) ==
      if limit > 0 && owner == e.owner && StillGood(e, now, retention) then Some(e.value) else None
  {
    var left := Unexpired(s, now, retention);
    LastUnexpired(s, e, now, retention);
    UnexpiredShape(s, now, retention);
    if limit > 0 && left != [] {
      OnlyTheLast(left, limit, e, owner);
    } else {
      assert LastN(left, limit) == [];
    }
  }

  /** The last of a sorted sequence is the last to expire. */
  lemma LastUnexpired<T>(s: seq<Finished<T>>, e: Finished<T>, now: nat, retention: Option<nat>)
    requires Sorted(s) && s != [] && s[|s| - 1] == e
    ensures var left := Unexpired(s, now, retention);
      if Expired(e, now, retention) then left == [] else left != [] && left[|left| - 1] == e
  {
    UnexpiredIsSuffix(s, ExpiredPrefix(s, now, retention), now, retention);
  }

  lemma {:induction false} LookupNone<T>(s: seq<Finished<T>>, id: string, owner: Option<string>)
    requires forall i :: 0 <= i < |s| ==> s[i].id != id || s[i].owner != owner
    ensures Lookup(s, id, owner) == None
  {
    if s != [] {
      LookupNone(s[1..], id, owner);
    }
  }

  lemma OnlyTheLast<T>(s: seq<Finished<T>>, limit: nat, e: Finished<T>, owner: Option<string>)
    requires UniqueIds(s) && s != [] && s[|s| - 1] == e && limit > 0
    ensures Lookup(LastN(s, limit), e.id, owner) == if owner == e.owner then Some(e.value) else None
  {
    if owner == e.owner {
      LookupInLast(s, limit, e.id, owner, |s| - 1);
    } else {
      var kept := LastN(s, limit);
      var cut := |s| - |kept|;
      forall i | 0 <= i < |kept| ensures kept[i].id != e.id || kept[i].owner != owner {
        assert kept[i] == s[cut + i];
        assert cut + i < |s| - 1 ==> s[cut + i].id != s[|s| - 1].id;
      }
      LookupNone(kept, e.id, owner);
    }
  }

  // ----- The code -----

  class RecentResults<T> {
    var entries: seq<Finished<T>>
    const limit: nat
    const retention: Option<nat>
    ghost var history: History<T>

    /** The deque is the last `limit` entries of the simple history. */
    ghost predicate Valid() reads this {
      Ordered(history) && entries == LastN(Survivors(history, retention), limit)
    }

    ghost predicate NotBefore(now: nat) reads this {
      forall i :: 0 <= i < |history| && history[i].Record? ==> history[i].entry.recorded <= now
    }

    constructor (limit: nat, retention: Option<nat>)
      ensures Valid() && history == [] && this.limit == limit && this.retention == retention
    {
      entries, history := [], [];
      this.limit, this.retention := limit, retention;
    }

    method PruneAt(now: nat)
      requires Valid()
      modifies this
      ensures Valid() && history == old(history) + [Prune(now)]
      ensures entries == LastN(Unexpired(Survivors(old(history), retention), now, retention), limit)
    {
      PrunedLast(history, limit, retention, now);
      if retention.Some? {
        var expired := ExpiredPrefix(entries, now, retention);
        entries := entries[expired..];
      } else {
        assert ExpiredPrefix(entries, now, retention) == 0;
      }
      history := history + [Prune(now)];
    }

    method RecordAt(id: string, owner: Option<string>, value: T, now: nat)
      requires Valid() && NotBefore(now)
      modifies this
      ensures Valid() && history == old(history) + [Record(Finished(id, owner, value, now))]
    {
      var e := Finished(id, owner, value, now);
      ghost var h := history;
      RecordedLast(h, limit, retention, e);
      PruneAt(now);
      Retain(id);
      entries := entries + [e];
      Trim();
      history := h + [Record(e)];
    }

    method Trim()
      modifies `entries
      ensures entries == LastN(old(entries), limit)
    {
      while |entries| > limit
        invariant |LastN(old(entries), limit)| <= |entries| <= |old(entries)|
        invariant entries == old(entries)[|old(entries)| - |entries|..]
      {
        entries := entries[1..];
      }
    }

    method Retain(id: string)
      modifies `entries
      ensures entries == WithoutId(old(entries), id)
    {
      var retained := [];
      for i := 0 to |entries|
        invariant entries == old(entries) && retained == WithoutId(entries[..i], id)
      {
        assert entries[..i + 1][..i] == entries[..i];
        if entries[i].id != id {
          retained := retained + [entries[i]];
        }
      }
      assert entries[..|entries|] == entries;
      entries := retained;
    }

    method GetOwned(id: string, owner: Option<string>, now: nat) returns (value: Option<T>)
      requires Valid()
      modifies this
      ensures Valid() && history == old(history) + [Prune(now)]
      ensures value == Lookup(LastN(Survivors(history, retention), limit), id, owner)
    {
      PruneAt(now);
      for i := 0 to |entries|
        invariant Valid() && history == old(history) + [Prune(now)]
        invariant Lookup(entries, id, owner) == Lookup(entries[i..], id, owner)
      {
        if entries[i].id == id && entries[i].owner == owner {
          return Some(entries[i].value);
        }
        assert entries[i..][1..] == entries[i + 1..];
      }
      return None;
    }

    method Values(now: nat) returns (values: seq<Finished<T>>)
      requires Valid()
      modifies this
      ensures Valid() && history == old(history) + [Prune(now)]
      ensures values == LastN(Survivors(history, retention), limit)
    {
      PruneAt(now);
      values := entries;
    }
  }
}
