/** DBIter (db/db_iter.cc): a cursor over user keys and values at a snapshot, on top of a cursor
    over internal entries. */
module DbIters {
  import opened InternalKeys
  import opened History
  import opened Cursors

  // ---------- the live entries of a sorted internal sequence ----------

  ghost predicate SeenAt(t: Table, s: nat, i: nat) {
    i < |t| && t[i].key.seqno <= s
  }

  /** Entry i is the newest visible version of its user key, and that version is a value. */
  ghost predicate LiveIndex(t: Table, s: nat, i: nat) {
    && SeenAt(t, s, i) && t[i].key.kind == TypeValue
    && forall j: nat :: j < i && SeenAt(t, s, j) ==> t[j].key.user != t[i].key.user
  }

  /** What a plain sorted map at the snapshot holds under `user`. */
  function LiveValue(t: Table, s: nat, user: UserKey): Option<Value> {
    ValueOf(Find(t, user, s))
  }

  lemma UsersAscend(t: Table, i: nat, j: nat)
    requires Sorted(t) && i <= j < |t|
    ensures t[i].key.user <= t[j].key.user
  {
  }

  /** The lookup position separates the entries a reader of `user` skips from those it may use. */
  lemma LookupPosition(t: Table, s: nat, user: UserKey, i: nat)
    requires Sorted(t) && SeenAt(t, s, i)
    ensures LowerBound(t, LookupKey(user, s)) <= i <==> user <= t[i].key.user
  {
    var p := LowerBound(t, LookupKey(user, s));
    if p <= i {
      UsersAscend(t, p, i);
    } else {
      LookupKeyBound(t[i].key, t[i].key.user, s);
    }
  }

  /** The live index of a key, when there is one, is where a lookup lands. */
  lemma LiveIndexIsLookup(t: Table, s: nat, i: nat)
    requires Sorted(t) && LiveIndex(t, s, i)
    ensures LiveValue(t, s, t[i].key.user) == Some(t[i].value)
  {
    var user := t[i].key.user;
    var p := LowerBound(t, LookupKey(user, s));
    LookupPosition(t, s, user, i);
    UsersAscend(t, p, i);
    LookupKeyBound(t[p].key, t[p].key.user, s);
    assert SeenAt(t, s, p) && t[p].key.user == user;
  }

  lemma LookupIsLiveIndex(t: Table, s: nat, user: UserKey) returns (i: nat)
    requires Sorted(t) && LiveValue(t, s, user).Some?
    ensures LiveIndex(t, s, i) && t[i].key.user == user
  {
    i := LowerBound(t, LookupKey(user, s));
    LookupKeyBound(t[i].key, user, s);
    forall j: nat | j < i && SeenAt(t, s, j) ensures t[j].key.user != user {
      LookupPosition(t, s, user, j);
    }
  }

  /** `at` is the first live key in `range`, with its value; None if no live key is in range. */
  ghost predicate LeastLive(t: Table, s: nat, range: UserKey -> bool, at: Option<(UserKey, Value)>) {
    match at
    case None => forall k :: range(k) ==> LiveValue(t, s, k) == None
    case Some((key, value)) =>
      && range(key) && LiveValue(t, s, key) == Some(value)
      && forall k :: range(k) && k < key ==> LiveValue(t, s, k) == None
  }

  /** `at` is the last live key in `range`, with its value; None if no live key is in range. */
  ghost predicate GreatestLive(t: Table, s: nat, range: UserKey -> bool, at: Option<(UserKey, Value)>) {
    match at
    case None => forall k :: range(k) ==> LiveValue(t, s, k) == None
    case Some((key, value)) =>
      && range(key) && LiveValue(t, s, key) == Some(value)
      && forall k :: range(k) && key < k ==> LiveValue(t, s, k) == None
  }

  ghost function KeyValue(e: Entry): (UserKey, Value) {
    (e.key.user, e.value)
  }

  /** The first live index in range gives the least live key in range. */
  lemma FirstIsLeast(t: Table, s: nat, range: UserKey -> bool, m: Option<nat>)
    requires Sorted(t)
    requires m.Some? ==> LiveIndex(t, s, m.value) && range(t[m.value].key.user)
    requires forall i: nat :: LiveIndex(t, s, i) && range(t[i].key.user) && (m.Some? ==> i < m.value) ==> false
    ensures LeastLive(t, s, range, if m.Some? then Some(KeyValue(t[m.value])) else None)
  {
    forall k | range(k) && (m.Some? ==> k < t[m.value].key.user) ensures LiveValue(t, s, k) == None {
      if LiveValue(t, s, k).Some? {
        var i := LookupIsLiveIndex(t, s, k);
        if m.Some? && m.value <= i {
          UsersAscend(t, m.value, i);
        }
      }
    }
    if m.Some? {
      LiveIndexIsLookup(t, s, m.value);
    }
  }

  lemma LastIsGreatest(t: Table, s: nat, range: UserKey -> bool, m: Option<nat>)
    requires Sorted(t)
    requires m.Some? ==> LiveIndex(t, s, m.value) && range(t[m.value].key.user)
    requires forall i: nat :: LiveIndex(t, s, i) && range(t[i].key.user) && (m.Some? ==> m.value < i) ==> false
    ensures GreatestLive(t, s, range, if m.Some? then Some(KeyValue(t[m.value])) else None)
  {
    forall k | range(k) && (m.Some? ==> t[m.value].key.user < k) ensures LiveValue(t, s, k) == None {
      if LiveValue(t, s, k).Some? {
        var i := LookupIsLiveIndex(t, s, k);
        if m.Some? && i <= m.value {
          UsersAscend(t, i, m.value);
        }
      }
    }
    if m.Some? {
      LiveIndexIsLookup(t, s, m.value);
    }
  }

  // ---------- forward scans ----------

  /** Entry i is what the forward scan is looking for. */
  ghost predicate Wanted(t: Table, s: nat, skipping: bool, skip: UserKey, i: nat) {
    LiveIndex(t, s, i) && (skipping ==> skip < t[i].key.user)
  }

  /** A forward scan may start at p: a version hidden by one before p belongs to a key being
      skipped. */
  ghost predicate ScanFrom(t: Table, s: nat, p: nat, skipping: bool, skip: UserKey) {
    forall i: nat, j: nat :: j < p <= i && SeenAt(t, s, j) && SeenAt(t, s, i) && t[j].key.user == t[i].key.user ==>
      skipping && t[i].key.user <= skip
  }

  /** A visible deletion takes over as the key to skip. */
  lemma DeletionHides(t: Table, s: nat, p: nat, skipping: bool, skip: UserKey)
    requires Sorted(t) && ScanFrom(t, s, p, skipping, skip)
    requires SeenAt(t, s, p) && t[p].key.kind == TypeDeletion && SkipBelow(t, s, p, skipping, skip)
    ensures ScanFrom(t, s, p + 1, true, t[p].key.user) && SkipBelow(t, s, p + 1, true, t[p].key.user)
    ensures forall i: nat :: p <= i ==> (Wanted(t, s, skipping, skip, i) <==> p < i && Wanted(t, s, true, t[p].key.user, i))
  {
    forall i: nat | p < i < |t| ensures t[p].key.user <= t[i].key.user {
      UsersAscend(t, p, i);
    }
    forall j: nat | j < p ensures t[j].key.user <= t[p].key.user {
      UsersAscend(t, j, p);
    }
  }

  /** Nothing visible from p on is below the skipped key. */
  ghost predicate SkipBelow(t: Table, s: nat, p: nat, skipping: bool, skip: UserKey) {
    skipping ==> forall i: nat :: p <= i && SeenAt(t, s, i) ==> skip <= t[i].key.user
  }

  /** Entries a forward scan passes over without noting anything: invisible, or of the skipped key. */
  lemma PassedOver(t: Table, s: nat, p: nat, skipping: bool, skip: UserKey)
    requires Sorted(t) && p < |t| && ScanFrom(t, s, p, skipping, skip) && SkipBelow(t, s, p, skipping, skip)
    requires SeenAt(t, s, p) ==> skipping && t[p].key.user <= skip
    ensures ScanFrom(t, s, p + 1, skipping, skip) && SkipBelow(t, s, p + 1, skipping, skip)
    ensures !Wanted(t, s, skipping, skip, p)
  {
  }

  /** A visible value that is not skipped is live. */
  lemma NotSkippedIsWanted(t: Table, s: nat, p: nat, skipping: bool, skip: UserKey)
    requires ScanFrom(t, s, p, skipping, skip)
    requires SeenAt(t, s, p) && t[p].key.kind == TypeValue && !(skipping && t[p].key.user <= skip)
    ensures LiveIndex(t, s, p) && Wanted(t, s, skipping, skip, p)
  {
  }

  // ---------- backward scans ----------

  /** Everything from `from` up to m is invisible. */
  ghost predicate NoneSeen(t: Table, s: nat, from: nat, m: nat) {
    forall j: nat :: from <= j < m ==> !SeenAt(t, s, j)
  }

  ghost predicate NoneLive(t: Table, s: nat, from: nat, to: nat) {
    forall j: nat :: from <= j < to ==> !LiveIndex(t, s, j)
  }

  /** What a backward scan of [r, q) has found: nothing live, or at m the oldest-so-far candidate. */
  ghost predicate Scanned(t: Table, s: nat, r: nat, q: nat, found: ValueType, m: nat) {
    if found == TypeDeletion then NoneLive(t, s, r, q)
    else
      && r <= m < q && SeenAt(t, s, m) && t[m].key.kind == TypeValue
      && NoneSeen(t, s, r, m) && NoneLive(t, s, m + 1, q)
  }

  /** One more visible entry of a backward scan replaces the candidate. */
  lemma ScannedBack(t: Table, s: nat, p: nat, q: nat, found: ValueType, m: nat)
    requires Sorted(t) && Scanned(t, s, p + 1, q, found, m) && p < q && SeenAt(t, s, p)
    requires found == TypeValue ==> t[m].key.user <= t[p].key.user
    ensures Scanned(t, s, p, q, t[p].key.kind, p)
  {
    if found == TypeValue {
      UsersAscend(t, p, m);
      assert !LiveIndex(t, s, m);
    }
  }

  /** The candidate is live once nothing visible before it shares its user key. */
  lemma CandidateIsLive(t: Table, s: nat, r: nat, q: nat, m: nat)
    requires Sorted(t) && Scanned(t, s, r, q, TypeValue, m)
    requires r == 0 || (SeenAt(t, s, r - 1) && t[r - 1].key.user < t[m].key.user)
    ensures LiveIndex(t, s, m)
  {
    forall j: nat | j < m && SeenAt(t, s, j) ensures t[j].key.user != t[m].key.user {
      UsersAscend(t, j, r - 1);
    }
  }

  // ---------- the iterator ----------

  datatype Direction = Forward | Reverse

  class DBIter {
    const iter: Cursor
    const sequence: nat
    var savedKey: UserKey
    var savedValue: Value
    var direction: Direction
    var valid: bool

    constructor (iter: Cursor, sequence: nat)
      requires iter.Ok()
      ensures Ok() && !valid && this.iter == iter && this.sequence == sequence
    {
      this.iter, this.sequence := iter, sequence;
      savedKey, savedValue := 0, [];
      direction, valid := Forward, false;
    }

    /** The entry that a reverse iterator has saved is at m: the inner cursor stands before it,
        with only invisible entries between. */
    ghost predicate SavedAt(m: nat)
      reads this, iter
    {
      && LiveIndex(iter.entries, sequence, m)
      && savedKey == iter.entries[m].key.user && savedValue == iter.entries[m].value
      && (if iter.Valid() then
            && iter.pos < m && NoneSeen(iter.entries, sequence, iter.pos + 1, m)
            && SeenAt(iter.entries, sequence, iter.pos) && iter.entries[iter.pos].key.user < savedKey
          else NoneSeen(iter.entries, sequence, 0, m))
    }

    ghost predicate Ok()
      reads this, iter
    {
      && iter.Ok()
      && (valid && direction == Forward ==> LiveIndex(iter.entries, sequence, iter.pos))
      && (valid && direction == Reverse ==> exists m: nat :: SavedAt(m))
    }

    function Key(): UserKey
      requires Ok() && valid
      reads this, iter
    {
      if direction == Forward then iter.Key().user else savedKey
    }

    function Value(): Value
      requires Ok() && valid
      reads this, iter
    {
      if direction == Forward then iter.Value() else savedValue
    }

    /** What the caller sees. */
    ghost function Current(): Option<(UserKey, Value)>
      requires Ok()
      reads this, iter
    {
      if valid then Some((Key(), Value())) else None
    }

    /** Stops at the first wanted entry at or after the inner cursor. */
    method FindNextUserEntry(skipping: bool, skip: UserKey)
      requires iter.Ok() && iter.Valid() && direction == Forward
      requires ScanFrom(iter.entries, sequence, iter.pos, skipping, skip)
      requires SkipBelow(iter.entries, sequence, iter.pos, skipping, skip)
      modifies this`valid, iter
      ensures Ok() && direction == Forward
      ensures valid ==> old(iter.pos) <= iter.pos && Wanted(iter.entries, sequence, skipping, skip, iter.pos)
      ensures forall i: nat :: old(iter.pos) <= i < |iter.entries| && (valid ==> i < iter.pos) ==>
                !Wanted(iter.entries, sequence, skipping, skip, i)
    {
      hide ScanFrom, SkipBelow, Wanted, Sorted;
      var t, s := iter.entries, sequence;
      var skippingNow, skipNow := skipping, skip;
      while iter.Valid()
        invariant iter.Ok()
        invariant old(iter.pos) <= iter.pos
        invariant ScanFrom(t, s, iter.pos, skippingNow, skipNow) && SkipBelow(t, s, iter.pos, skippingNow, skipNow)
        invariant forall i: nat :: old(iter.pos) <= i < iter.pos ==> !Wanted(t, s, skipping, skip, i)
        invariant forall i: nat :: iter.pos <= i ==> (Wanted(t, s, skipping, skip, i) <==> Wanted(t, s, skippingNow, skipNow, i))
        decreases |t| - iter.pos
      {
        var key := iter.Key();
        ghost var p := iter.pos;
        if key.seqno <= s {
          assert SeenAt(t, s, p);
          match key.kind
          case TypeDeletion =>
            DeletionHides(t, s, p, skippingNow, skipNow);
            skippingNow, skipNow := true, key.user;
          case TypeValue =>
            if skippingNow && key.user <= skipNow {
              PassedOver(t, s, p, skippingNow, skipNow);
            } else {
              NotSkippedIsWanted(t, s, p, skippingNow, skipNow);
              valid := true;
              return;
            }
        } else {
          PassedOver(t, s, p, skippingNow, skipNow);
        }
        iter.Next();
      }
      valid := false;
    }

    /** Position from which everything at or after belongs to the scan; |entries| past the end. */
    ghost function Rest(): nat
      reads iter
    {
      if iter.Valid() then iter.pos + 1 else 0
    }

    /** Saves the last live entry before the inner cursor (inclusive), scanning backwards. */
    method FindPrevUserEntry()
      requires iter.Ok() && direction == Reverse
      modifies this, iter
      ensures Ok()
      ensures valid ==> direction == Reverse
      ensures valid ==> exists m: nat :: m < old(Rest()) && SavedAt(m) && NoneLive(iter.entries, sequence, m + 1, old(Rest()))
      ensures !valid ==> NoneLive(iter.entries, sequence, 0, old(Rest()))
    {
      var t, s := iter.entries, sequence;
      ghost var q := Rest();
      ghost var m: nat := 0;
      var found := TypeDeletion;
      while iter.Valid()
        invariant iter.Ok() && direction == Reverse && Rest() <= q
        invariant Scanned(t, s, Rest(), q, found, m)
        invariant found == TypeValue ==> savedKey == t[m].key.user && savedValue == t[m].value
        decreases Rest()
      {
        var key := iter.Key();
        if key.seqno <= s {
          assert SeenAt(t, s, iter.pos);
          if found != TypeDeletion && key.user < savedKey {
            break;
          }
          ScannedBack(t, s, iter.pos, q, found, m);
          found := key.kind;
          m := iter.pos;
          if found == TypeDeletion {
            savedKey, savedValue := 0, [];
          } else {
            savedKey, savedValue := key.user, iter.Value();
          }
        }
        iter.Prev();
      }
      if found == TypeDeletion {
        valid := false;
        savedKey, savedValue := 0, [];
        direction := Forward;
        assert Rest() == 0;
      } else {
        valid := true;
        CandidateIsLive(t, s, Rest(), q, m);
        assert SavedAt(m);
      }
    }

    /** Next moves to the least live key above the current one, from either direction. */
    method Next()
      requires Ok() && valid
      modifies this, iter
      ensures Ok()
      ensures var k0 := old(Key()); LeastLive(iter.entries, sequence, (k: UserKey) => k0 < k, Current())
    {
      ghost var t, s, k0 := iter.entries, sequence, Key();
      ghost var m: nat := iter.pos;
      if direction == Reverse {
        m :| SavedAt(m);
        direction := Forward;
        if !iter.Valid() {
          iter.SeekToFirst();
        } else {
          iter.Next();
        }
        // The current entry lies ahead, so the early exit that Next has for an exhausted cursor here
        // is never taken.
        assert iter.Valid();
      } else {
        savedKey := iter.Key().user;
      }
      ghost var p := iter.pos;
      assert p <= m && NoneSeen(t, s, p, m);
      forall i: nat | p <= i && SeenAt(t, s, i) ensures k0 <= t[i].key.user {
        UsersAscend(t, m, i);
      }
      forall j: nat | j < p && SeenAt(t, s, j) ensures t[j].key.user < k0 {
        UsersAscend(t, j, p - 1);
      }
      FindNextUserEntry(true, savedKey);
      assert forall i: nat :: p <= i && LiveIndex(t, s, i) && k0 < t[i].key.user ==> Wanted(t, s, true, k0, i);
      FirstIsLeast(t, s, (k: UserKey) => k0 < k, if valid then Some(iter.pos) else None);
    }

    /** Prev moves to the greatest live key below the current one, from either direction. */
    method Prev()
      requires Ok() && valid
      modifies this, iter
      ensures Ok()
      ensures var k0 := old(Key()); GreatestLive(iter.entries, sequence, (k: UserKey) => k < k0, Current())
    {
      ghost var t, s, k0 := iter.entries, sequence, Key();
      ghost var m: nat := iter.pos;
      if direction == Forward {
        savedKey := iter.Key().user;
        while true
          invariant iter.Ok() && iter.Valid() && iter.pos <= m < |t|
          invariant t[iter.pos].key.user == k0 == t[m].key.user == savedKey
          decreases iter.pos
        {
          ghost var here := iter.pos;
          iter.Prev();
          if !iter.Valid() {
            valid := false;
            savedKey, savedValue := 0, [];
            forall i: nat | i < |t| ensures k0 <= t[i].key.user {
              UsersAscend(t, here, i);
            }
            LastIsGreatest(t, s, (k: UserKey) => k < k0, None);
            return;
          }
          UsersAscend(t, iter.pos, here);
          if iter.Key().user < savedKey {
            break;
          }
        }
        direction := Reverse;
        assert iter.Valid() && iter.pos < m && t[iter.pos + 1].key.user == k0;
      } else {
        m :| SavedAt(m);
      }
      ghost var q := Rest();
      forall i: nat | q <= i < |t| && SeenAt(t, s, i) ensures k0 <= t[i].key.user {
        UsersAscend(t, if i < m then q else m, i);
      }
      forall i: nat | i < q ensures t[i].key.user < k0 {
        UsersAscend(t, i, q - 1);
      }
      FindPrevUserEntry();
      ghost var n: Option<nat> := None;
      if valid {
        ghost var l: nat :| l < q && SavedAt(l) && NoneLive(t, s, l + 1, q);
        n := Some(l);
      }
      LastIsGreatest(t, s, (k: UserKey) => k < k0, n);
    }

    /** Seek moves to the least live key at or after the target. */
    method Seek(target: UserKey)
      requires iter.Ok()
      modifies this, iter
      ensures Ok()
      ensures LeastLive(iter.entries, sequence, (k: UserKey) => target <= k, Current())
    {
      direction := Forward;
      savedKey, savedValue := 0, [];
      iter.Seek(LookupKey(target, sequence));
      ghost var t, s := iter.entries, sequence;
      forall i: nat | SeenAt(t, s, i) ensures iter.pos <= i <==> target <= t[i].key.user {
        LookupPosition(t, s, target, i);
      }
      if iter.Valid() {
        ghost var skip := savedKey;
        FindNextUserEntry(false, savedKey);
        assert forall i: nat :: LiveIndex(t, s, i) ==> Wanted(t, s, false, skip, i);
      } else {
        valid := false;
      }
      FirstIsLeast(t, s, (k: UserKey) => target <= k, if valid then Some(iter.pos) else None);
    }

    method SeekToFirst()
      requires iter.Ok()
      modifies this, iter
      ensures Ok()
      ensures LeastLive(iter.entries, sequence, (k: UserKey) => true, Current())
    {
      direction := Forward;
      savedValue := [];
      iter.SeekToFirst();
      ghost var t, s := iter.entries, sequence;
      if iter.Valid() {
        ghost var skip := savedKey;
        FindNextUserEntry(false, savedKey);
        assert forall i: nat :: LiveIndex(t, s, i) ==> Wanted(t, s, false, skip, i);
      } else {
        valid := false;
      }
      FirstIsLeast(t, s, (k: UserKey) => true, if valid then Some(iter.pos) else None);
    }

    method SeekToLast()
      requires iter.Ok()
      modifies this, iter
      ensures Ok()
      ensures GreatestLive(iter.entries, sequence, (k: UserKey) => true, Current())
    {
      direction := Reverse;
      savedValue := [];
      iter.SeekToLast();
      FindPrevUserEntry();
      ghost var m: Option<nat> := None;
      if valid {
        ghost var n: nat :| n < |iter.entries| && SavedAt(n) && NoneLive(iter.entries, sequence, n + 1, |iter.entries|);
        m := Some(n);
      }
      LastIsGreatest(iter.entries, sequence, (k: UserKey) => true, m);
    }
  }
}
