/** The writer queue (DBImpl::Write, DBImpl::BuildBatchGroup): many threads enqueue, the one at the
    front commits a group for all of them. */
module GroupCommit {
  import opened InternalKeys
  import opened History

  /** A queued writer. A null batch asks for the memtable to be switched and writes nothing;
      `size` is the byte size of the batch. */
  datatype Writer = Writer(batch: Option<Writes>, size: nat, sync: bool)

  datatype Record = Record(base: nat, ops: Writes, synced: bool)

  datatype Phase =
    | Waiting
    | Leading(n: nat, ops: Writes, logged: bool, inserted: nat)

  /** The group a leader at arrival position `start` built: `n` of the `seen` writers there were. */
  datatype Group = Group(start: nat, n: nat, seen: nat)

  /** The shared state, with the full arrival order, the number of finished writers, the groups built and
      the arrival positions at which the memtable was switched as history. */
  datatype State = State(
    queue: seq<Writer>, phase: Phase, lastSequence: nat, log: seq<Record>, mem: set<(nat, Op)>,
    arrived: seq<Writer>, finished: nat, groups: seq<Group>, switches: seq<nat>)

  const START: State := State([], Waiting, 0, [], {}, [], 0, [], [])

  function OpsOf(w: Writer): Writes {
    if w.batch.Some? then w.batch.value else []
  }

  function GroupOps(ws: seq<Writer>): Writes {
    if ws == [] then [] else GroupOps(ws[..|ws| - 1]) + OpsOf(ws[|ws| - 1])
  }

  // ---------- building a group ----------

  const SMALL_BATCH: nat := 128 * 1024
  const MAX_GROUP: nat := 1024 * 1024

  /** A small first batch limits how far the group may grow. */
  function MaxSize(first: Writer): nat {
    if first.size <= SMALL_BATCH then first.size + SMALL_BATCH else MAX_GROUP
  }

  function TotalSize(ws: seq<Writer>): nat {
    if ws == [] then 0
    else TotalSize(ws[..|ws| - 1]) + (if ws[|ws| - 1].batch.Some? then ws[|ws| - 1].size else 0)
  }

  /** Writer i may ride in a group led by the first of the queue, given that all before it do. */
  predicate MayJoin(queue: seq<Writer>, i: nat)
    requires 0 < i < |queue|
  {
    && !(queue[i].sync && !queue[0].sync)
    && (queue[i].batch.Some? ==> TotalSize(queue[..i + 1]) <= MaxSize(queue[0]))
  }

  /** n is the length of the group: everyone up to n may join, and the next one, if any, may not. */
  ghost predicate IsGroup(queue: seq<Writer>, n: nat) {
    && 0 < n <= |queue|
    && (forall i :: 0 < i < n ==> MayJoin(queue, i))
    && (n < |queue| ==> !MayJoin(queue, n))
  }

  /** BuildBatchGroup: the longest admissible prefix of the queue, batches joined in order. */
  method BuildBatchGroup(queue: seq<Writer>) returns (n: nat, updates: Writes)
    requires queue != [] && queue[0].batch.Some?
    ensures IsGroup(queue, n)
    ensures updates == GroupOps(queue[..n])
  {
    var first := queue[0];
    updates := first.batch.value;
    var size := first.size;
    n := 1;
    assert queue[..1] == [first] && [first][..0] == [];
    while n < |queue|
      invariant 0 < n <= |queue|
      invariant forall i :: 0 < i < n ==> MayJoin(queue, i)
      invariant updates == GroupOps(queue[..n])
      invariant size == TotalSize(queue[..n])
    {
      var w := queue[n];
      assert queue[..n + 1][..n] == queue[..n];
      if w.sync && !first.sync {
        break;
      }
      if w.batch.Some? {
        size := size + w.size;
        if size > MaxSize(first) {
          break;
        }
        updates := updates + w.batch.value;
      }
      n := n + 1;
    }
  }

  // ---------- the protocol as steps ----------

  datatype Action = Enqueue(w: Writer) | Switch | Lead(n: nat) | AppendRecord | InsertNext | Complete

  predicate Enabled(s: State, a: Action) {
    match a
    case Enqueue(_) => true
    case Switch => s.phase.Waiting? && s.queue != []
    case Lead(n) => s.phase.Waiting? && 0 < n <= |s.queue| && (s.queue[0].batch.None? ==> s.finished in s.switches)
    case AppendRecord => s.phase.Leading? && !s.phase.logged && s.queue != []
    case InsertNext => s.phase.Leading? && s.phase.logged && s.phase.inserted < |s.phase.ops|
    case Complete => s.phase.Leading? && s.phase.logged && s.phase.inserted == |s.phase.ops| && s.phase.n <= |s.queue|
  }

  /** The thread at the front leads with exactly the group BuildBatchGroup returns, or alone if its
      batch is null. */
  ghost predicate RightGroup(s: State, a: Action) {
    a.Lead? && s.queue != [] ==> if s.queue[0].batch.Some? then IsGroup(s.queue, a.n) else a.n == 1
  }

  /** MakeRoomForWrite is called by the thread at the front alone, and switches the memtable when that is
      full or the batch is null. Leaving the queue happens at the very end, together with publishing the
      sequence number; a null request at the front writes no record and leaves at once. */
  function Next(s: State, a: Action): State
    requires Enabled(s, a)
  {
    match a
    case Enqueue(w) => s.(queue := s.queue + [w], arrived := s.arrived + [w])
    case Switch => s.(switches := s.switches + [s.finished])
    case Lead(n) =>
      var groups := s.groups + [Group(s.finished, n, |s.arrived|)];
      if s.queue[0].batch.None? then s.(queue := s.queue[n..], finished := s.finished + n, groups := groups)
      else s.(phase := Leading(n, GroupOps(s.queue[..n]), false, 0), groups := groups)
    case AppendRecord =>
      s.(log := s.log + [Record(s.lastSequence + 1, s.phase.ops, s.queue[0].sync)],
         phase := s.phase.(logged := true))
    case InsertNext =>
      s.(mem := s.mem + {(s.lastSequence + 1 + s.phase.inserted, s.phase.ops[s.phase.inserted])},
         phase := s.phase.(inserted := s.phase.inserted + 1))
    case Complete =>
      s.(lastSequence := s.lastSequence + |s.phase.ops|, queue := s.queue[s.phase.n..],
         finished := s.finished + s.phase.n, phase := Waiting)
  }

  // ---------- the invariant ----------

  /** Sequence number just before the writer at position i of the arrival order. */
  function Base(arrived: seq<Writer>, i: nat): nat
    requires i <= |arrived|
  {
    |GroupOps(arrived[..i])|
  }

  /** The first sequence number after record i. */
  function NextBase(log: seq<Record>, i: nat, upTo: nat): nat
    requires i < |log|
  {
    if i + 1 < |log| then log[i + 1].base else upTo + 1
  }

  /** Log records follow one another without gap or overlap. */
  ghost predicate Contiguous(log: seq<Record>, upTo: nat) {
    && (forall i :: 0 <= i < |log| ==> log[i].base + |log[i].ops| == NextBase(log, i, upTo))
    && (|log| > 0 ==> log[0].base == 1)
    && (|log| == 0 ==> upTo == 0)
  }

  function LoggedOps(log: seq<Record>): Writes {
    if log == [] then [] else LoggedOps(log[..|log| - 1]) + log[|log| - 1].ops
  }

  /** Each arrival with a sync request lies in the range of a synced record. */
  ghost predicate SyncsHonoured(s: State, upTo: nat) {
    forall i :: 0 <= i < upTo && i < |s.arrived| && s.arrived[i].sync && OpsOf(s.arrived[i]) != [] ==>
      exists r :: 0 <= r < |s.log| && Carries(s.log[r], Base(s.arrived, i), Base(s.arrived, i + 1))
  }

  ghost predicate Carries(r: Record, lo: nat, hi: nat) {
    r.synced && r.base <= lo + 1 && hi < r.base + |r.ops|
  }

  ghost predicate MemHolds(mem: set<(nat, Op)>, ops: Writes, upTo: nat)
    requires upTo <= |ops|
  {
    forall q: nat, op :: (q, op) in mem <==> 1 <= q <= upTo && ops[q - 1] == op
  }

  ghost predicate LeadingOk(s: State) {
    s.phase.Leading? ==>
      && 0 < s.phase.n <= |s.queue|
      && s.phase.ops == GroupOps(s.queue[..s.phase.n])
      && s.phase.inserted <= |s.phase.ops|
      && (!s.phase.logged ==> s.phase.inserted == 0)
      && (forall i :: 0 <= i < s.phase.n && s.queue[i].sync ==> s.queue[0].sync)
  }

  /** How far the log reaches. */
  function LogEnd(s: State): nat {
    s.lastSequence + (if s.phase.Leading? && s.phase.logged then |s.phase.ops| else 0)
  }

  /** Position in the arrival order up to which writers' records are in the log. */
  function LoggedUpTo(s: State): nat {
    s.finished + (if s.phase.Leading? && s.phase.logged then s.phase.n else 0)
  }

  ghost predicate Inv(s: State) {
    && s.finished <= |s.arrived| && s.arrived[s.finished..] == s.queue
    && LeadingOk(s)
    && s.lastSequence == Base(s.arrived, s.finished)
    && LoggedUpTo(s) <= |s.arrived|
    && LoggedOps(s.log) == GroupOps(s.arrived[..LoggedUpTo(s)])
    && Contiguous(s.log, LogEnd(s))
    && LogEnd(s) == Base(s.arrived, LoggedUpTo(s))
    && s.lastSequence + (if s.phase.Leading? then s.phase.inserted else 0) <= |GroupOps(s.arrived)|
    && MemHolds(s.mem, GroupOps(s.arrived), s.lastSequence + (if s.phase.Leading? then s.phase.inserted else 0))
    && SyncsHonoured(s, LoggedUpTo(s))
  }

  lemma {:induction false} GroupOpsJoin(a: seq<Writer>, b: seq<Writer>)
    ensures GroupOps(a + b) == GroupOps(a) + GroupOps(b)
  {
    if b == [] {
      assert a + b == a;
    } else {
      var n := |b| - 1;
      GroupOpsJoin(a, b[..n]);
      assert (a + b)[..|a + b| - 1] == a + b[..n] && (a + b)[|a + b| - 1] == b[n];
      assert GroupOps(a) + (GroupOps(b[..n]) + OpsOf(b[n])) == (GroupOps(a) + GroupOps(b[..n])) + OpsOf(b[n]);
    }
  }

  /** Base never decreases along the arrival order. */
  lemma BaseMonotone(arrived: seq<Writer>, i: nat, j: nat)
    requires i <= j <= |arrived|
    ensures Base(arrived, i) <= Base(arrived, j)
    ensures GroupOps(arrived[..j]) == GroupOps(arrived[..i]) + GroupOps(arrived[i..j])
  {
    assert arrived[..j] == arrived[..i] + arrived[i..j];
    GroupOpsJoin(arrived[..i], arrived[i..j]);
  }

  lemma WholeOps(arrived: seq<Writer>, i: nat)
    requires i <= |arrived|
    ensures GroupOps(arrived) == GroupOps(arrived[..i]) + GroupOps(arrived[i..])
  {
    assert arrived == arrived[..i] + arrived[i..];
    GroupOpsJoin(arrived[..i], arrived[i..]);
  }

  lemma EnqueueKeeps(s: State, w: Writer)
    requires Inv(s)
    ensures Inv(Next(s, Enqueue(w)))
  {
    hide SyncsHonoured, Contiguous, MemHolds, GroupOps, LoggedOps;
    var s' := Next(s, Enqueue(w));
    assert s'.arrived[s.finished..] == s.queue + [w];
    PrefixBase(s.arrived, s'.arrived, s.finished);
    PrefixBase(s.arrived, s'.arrived, LoggedUpTo(s));
    GroupOpsJoin(s.arrived, [w]);
    MemExtends(s.mem, GroupOps(s.arrived), GroupOps([w]), s.lastSequence + (if s.phase.Leading? then s.phase.inserted else 0));
    if s.phase.Leading? {
      assert s'.queue[..s.phase.n] == s.queue[..s.phase.n];
    }
    SyncsExtend(s, s');
  }

  lemma PrefixBase(a: seq<Writer>, a': seq<Writer>, i: nat)
    requires i <= |a| <= |a'| && a'[..|a|] == a
    ensures a'[..i] == a[..i] && Base(a', i) == Base(a, i)
  {
    assert a'[..i] == a'[..|a|][..i];
  }

  lemma MemExtends(mem: set<(nat, Op)>, ops: Writes, more: Writes, upTo: nat)
    requires upTo <= |ops| && MemHolds(mem, ops, upTo)
    ensures MemHolds(mem, ops + more, upTo)
  {
  }

  lemma SyncsExtend(s: State, s': State)
    requires SyncsHonoured(s, LoggedUpTo(s)) && LoggedUpTo(s) <= |s.arrived| <= |s'.arrived|
    requires s'.log == s.log && s'.arrived[..|s.arrived|] == s.arrived
    ensures SyncsHonoured(s', LoggedUpTo(s))
  {
    forall i | 0 <= i < LoggedUpTo(s) && s'.arrived[i].sync && OpsOf(s'.arrived[i]) != []
      ensures exists r :: 0 <= r < |s'.log| && Carries(s'.log[r], Base(s'.arrived, i), Base(s'.arrived, i + 1))
    {
      PrefixBase(s.arrived, s'.arrived, i);
      PrefixBase(s.arrived, s'.arrived, i + 1);
      assert s'.arrived[i] == s'.arrived[..|s.arrived|][i];
      var r :| 0 <= r < |s.log| && Carries(s.log[r], Base(s.arrived, i), Base(s.arrived, i + 1));
      assert Carries(s'.log[r], Base(s'.arrived, i), Base(s'.arrived, i + 1));
    }
  }

  lemma SwitchKeeps(s: State)
    requires Inv(s) && Enabled(s, Switch)
    ensures Inv(Next(s, Switch))
  {
    hide Contiguous, MemHolds, GroupOps, LoggedOps;
    SameSyncs(s, Next(s, Switch), LoggedUpTo(s));
  }

  lemma LeadKeeps(s: State, n: nat)
    requires Inv(s) && Enabled(s, Lead(n)) && RightGroup(s, Lead(n))
    ensures Inv(Next(s, Lead(n)))
  {
    hide SyncsHonoured, Contiguous, MemHolds, GroupOps, LoggedOps;
    if s.queue[0].batch.None? {
      NullRequestWritesNothing(s.arrived, s.finished);
      assert s.arrived[s.finished] == s.queue[0];
      assert s.arrived[s.finished + 1..] == s.queue[1..];
      NullRequestNeedsNoSync(s, Next(s, Lead(n)));
    } else {
      forall i | 0 <= i < n && s.queue[i].sync ensures s.queue[0].sync {
        assert i == 0 || MayJoin(s.queue, i);
      }
      SameSyncs(s, Next(s, Lead(n)), s.finished);
    }
  }

  lemma NullRequestWritesNothing(arrived: seq<Writer>, i: nat)
    requires i < |arrived|
    ensures arrived[i].batch.None? ==> GroupOps(arrived[..i + 1]) == GroupOps(arrived[..i])
  {
    assert arrived[..i + 1][..i] == arrived[..i];
    assert GroupOps(arrived[..i]) + [] == GroupOps(arrived[..i]);
  }

  lemma NullRequestNeedsNoSync(s: State, s': State)
    requires s.phase.Waiting? && s'.phase.Waiting? && s'.finished == s.finished + 1 <= |s.arrived|
    requires s'.arrived == s.arrived && s'.log == s.log && SyncsHonoured(s, s.finished)
    requires OpsOf(s.arrived[s.finished]) == []
    ensures SyncsHonoured(s', s'.finished)
  {
    forall i | 0 <= i < s'.finished && s'.arrived[i].sync && OpsOf(s'.arrived[i]) != []
      ensures exists r :: 0 <= r < |s'.log| && Carries(s'.log[r], Base(s'.arrived, i), Base(s'.arrived, i + 1))
    {
      var r :| 0 <= r < |s.log| && Carries(s.log[r], Base(s.arrived, i), Base(s.arrived, i + 1));
    }
  }

  lemma AppendRecordKeeps(s: State)
    requires Inv(s) && Enabled(s, AppendRecord)
    ensures Inv(Next(s, AppendRecord))
  {
    hide SyncsHonoured, Contiguous, MemHolds, GroupOps, LoggedOps;
    var s' := Next(s, AppendRecord);
    var n := s.phase.n;
    assert s.arrived[s.finished..s.finished + n] == s.queue[..n];
    BaseMonotone(s.arrived, s.finished, s.finished + n);
    AppendContiguous(s.log, s.lastSequence, Record(s.lastSequence + 1, s.phase.ops, s.queue[0].sync));
    AppendedSyncs(s, s', n);
  }

  lemma AppendContiguous(log: seq<Record>, upTo: nat, r: Record)
    requires Contiguous(log, upTo) && r.base == upTo + 1
    ensures Contiguous(log + [r], upTo + |r.ops|)
    ensures LoggedOps(log + [r]) == LoggedOps(log) + r.ops
  {
    var longer := log + [r];
    assert longer[..|longer| - 1] == log && longer[|log|] == r;
    forall i | 0 <= i < |longer|
      ensures longer[i].base + |longer[i].ops| == NextBase(longer, i, upTo + |r.ops|)
    {
      if i < |log| {
        assert longer[i] == log[i];
        assert NextBase(longer, i, upTo + |r.ops|) == NextBase(log, i, upTo);
      }
    }
  }

  lemma AppendedSyncs(s: State, s': State, n: nat)
    requires s.finished + n <= |s.arrived| && s.arrived[s.finished..] == s.queue && 0 < n <= |s.queue|
    requires s'.arrived == s.arrived && SyncsHonoured(s, s.finished)
    requires forall i :: 0 <= i < n && s.queue[i].sync ==> s.queue[0].sync
    requires s'.log == s.log + [Record(s.lastSequence + 1, GroupOps(s.queue[..n]), s.queue[0].sync)]
    requires s.lastSequence == Base(s.arrived, s.finished)
    ensures SyncsHonoured(s', s.finished + n)
  {
    hide GroupOps, Base, Carries;
    forall i | 0 <= i < s.finished + n && s'.arrived[i].sync && OpsOf(s'.arrived[i]) != []
      ensures exists r :: 0 <= r < |s'.log| && Carries(s'.log[r], Base(s'.arrived, i), Base(s'.arrived, i + 1))
    {
      if i < s.finished {
        var r :| 0 <= r < |s.log| && Carries(s.log[r], Base(s.arrived, i), Base(s.arrived, i + 1));
        assert s'.log[r] == s.log[r];
      } else {
        RidesInGroup(s, n, i);
        assert s'.log[|s.log|] == Record(s.lastSequence + 1, GroupOps(s.queue[..n]), s.queue[0].sync);
      }
    }
  }

  /** A member of the group finds its writes within the group's record. */
  lemma RidesInGroup(s: State, n: nat, i: nat)
    requires s.finished + n <= |s.arrived| && s.arrived[s.finished..] == s.queue && 0 < n <= |s.queue|
    requires s.lastSequence == Base(s.arrived, s.finished)
    requires s.finished <= i < s.finished + n && s.queue[i - s.finished].sync ==> s.queue[0].sync
    requires s.finished <= i < s.finished + n && s.arrived[i].sync
    ensures Carries(Record(s.lastSequence + 1, GroupOps(s.queue[..n]), s.queue[0].sync), Base(s.arrived, i), Base(s.arrived, i + 1))
  {
    hide GroupOps;
    assert s.arrived[i] == s.arrived[s.finished..][i - s.finished] == s.queue[i - s.finished];
    assert s.arrived[s.finished..s.finished + n] == s.queue[..n];
    BaseMonotone(s.arrived, s.finished, s.finished + n);
    BaseMonotone(s.arrived, s.finished, i);
    BaseMonotone(s.arrived, i + 1, s.finished + n);
  }

  lemma InsertNextKeeps(s: State)
    requires Inv(s) && Enabled(s, InsertNext)
    ensures Inv(Next(s, InsertNext))
  {
    hide SyncsHonoured, Contiguous, MemHolds, GroupOps, LoggedOps;
    var q := s.lastSequence + s.phase.inserted;
    WholeOps(s.arrived, s.finished);
    assert s.queue == s.queue[..s.phase.n] + s.queue[s.phase.n..];
    GroupOpsJoin(s.queue[..s.phase.n], s.queue[s.phase.n..]);
    assert GroupOps(s.arrived)[q] == s.phase.ops[s.phase.inserted];
    MemInsert(s.mem, GroupOps(s.arrived), q);
    SameSyncs(s, Next(s, InsertNext), LoggedUpTo(s));
  }

  lemma MemInsert(mem: set<(nat, Op)>, ops: Writes, upTo: nat)
    requires upTo < |ops| && MemHolds(mem, ops, upTo)
    ensures MemHolds(mem + {(upTo + 1, ops[upTo])}, ops, upTo + 1)
  {
  }

  lemma SameSyncs(s: State, s': State, upTo: nat)
    requires SyncsHonoured(s, upTo) && s'.arrived == s.arrived && s'.log == s.log
    ensures SyncsHonoured(s', upTo)
  {
  }

  lemma CompleteKeeps(s: State)
    requires Inv(s) && Enabled(s, Complete)
    ensures Inv(Next(s, Complete))
  {
    hide SyncsHonoured, Contiguous, MemHolds, GroupOps, LoggedOps;
    assert s.arrived[s.finished + s.phase.n..] == s.queue[s.phase.n..];
    SameSyncs(s, Next(s, Complete), LoggedUpTo(s));
  }

  lemma StepKeeps(s: State, a: Action)
    requires Inv(s) && Enabled(s, a) && RightGroup(s, a)
    ensures Inv(Next(s, a))
    ensures s.lastSequence <= Next(s, a).lastSequence && s.finished <= Next(s, a).finished
  {
    hide Inv, Contiguous, SyncsHonoured, MemHolds;
    match a
    case Enqueue(w) => EnqueueKeeps(s, w);
    case Switch => SwitchKeeps(s);
    case Lead(n) => LeadKeeps(s, n);
    case AppendRecord => AppendRecordKeeps(s);
    case InsertNext => InsertNextKeeps(s);
    case Complete => CompleteKeeps(s);
  }

  ghost predicate ValidRun(s: State, acts: seq<Action>)
    decreases |acts|
  {
    acts == [] || (Enabled(s, acts[0]) && RightGroup(s, acts[0]) && ValidRun(Next(s, acts[0]), acts[1..]))
  }

  ghost function After(s: State, acts: seq<Action>): State
    requires ValidRun(s, acts)
    decreases |acts|
  {
    if acts == [] then s else After(Next(s, acts[0]), acts[1..])
  }

  lemma {:induction false} RunKeeps(s: State, acts: seq<Action>)
    requires Inv(s) && ValidRun(s, acts)
    ensures Inv(After(s, acts))
    decreases |acts|
  {
    hide Inv, Enabled, RightGroup, Next;
    if acts != [] {
      StepKeeps(s, acts[0]);
      RunKeeps(Next(s, acts[0]), acts[1..]);
    }
  }

  /** The published sequence number covers all of writer i's batch or none of it. */
  ghost predicate WholeOrUnseen(s: State, i: nat)
    requires i < |s.arrived|
  {
    if i < s.finished then Base(s.arrived, i + 1) <= s.lastSequence else s.lastSequence <= Base(s.arrived, i)
  }

  /** Over every interleaving: writers finish in arrival order, each exactly once; the log is their
      batches in that order with contiguous sequence numbers; a sync write is in a synced record;
      and no batch is ever half visible at the published sequence number. */
  lemma GroupCommitIsOrderedAndAtomic(acts: seq<Action>)
    requires ValidRun(START, acts)
    ensures var s := After(START, acts);
            && s.finished <= |s.arrived| && s.arrived[s.finished..] == s.queue
            && LoggedUpTo(s) <= |s.arrived|
            && LoggedOps(s.log) == GroupOps(s.arrived[..LoggedUpTo(s)])
            && Contiguous(s.log, LogEnd(s))
            && SyncsHonoured(s, LoggedUpTo(s))
            && (forall i :: 0 <= i < |s.arrived| ==> WholeOrUnseen(s, i))
            && (forall q: nat, op :: q <= s.lastSequence ==>
                  ((q, op) in s.mem <==> 1 <= q && q <= |GroupOps(s.arrived)| && GroupOps(s.arrived)[q - 1] == op))
  {
    hide SyncsHonoured, Contiguous, GroupOps, LoggedOps, LeadingOk, Base;
    StartInv();
    RunKeeps(START, acts);
    var s := After(START, acts);
    forall i | 0 <= i < |s.arrived|
      ensures WholeOrUnseen(s, i)
    {
      if i < s.finished {
        BaseMonotone(s.arrived, i + 1, s.finished);
      } else {
        BaseMonotone(s.arrived, s.finished, i);
      }
    }
  }

  lemma StartInv()
    ensures Inv(START)
  {
    assert START.arrived[0..] == [];
  }

  // ---------- who gets the memtable switched ----------

  /** The group is the one BuildBatchGroup builds of the writers there were. */
  ghost predicate GroupOk(arrived: seq<Writer>, g: Group) {
    && 0 < g.n && g.start + g.n <= g.seen <= |arrived|
    && (if arrived[g.start].batch.Some? then IsGroup(arrived[g.start..g.seen], g.n) else g.n == 1)
  }

  /** Where the group after the k-th one starts. */
  function GroupEnd(groups: seq<Group>, k: nat): nat
    requires k <= |groups|
  {
    if k == 0 then 0 else groups[k - 1].start + groups[k - 1].n
  }

  ghost predicate Tiled(arrived: seq<Writer>, groups: seq<Group>) {
    forall k :: 0 <= k < |groups| ==> GroupOk(arrived, groups[k]) && groups[k].start == GroupEnd(groups, k)
  }

  ghost predicate StartsGroup(groups: seq<Group>, p: nat) {
    exists k :: 0 <= k < |groups| && groups[k].start == p
  }

  /** The groups follow one another through the arrival order; the memtable is switched at the start of a
      group, always if the leader's batch is null. */
  ghost predicate Grouped(s: State) {
    && Tiled(s.arrived, s.groups)
    && GroupEnd(s.groups, |s.groups|) == s.finished + (if s.phase.Leading? then s.phase.n else 0)
    && (forall p :: p in s.switches ==> p == GroupEnd(s.groups, |s.groups|) || StartsGroup(s.groups, p))
    && (forall g :: g in s.groups && g.start < |s.arrived| && s.arrived[g.start].batch.None? ==> g.start in s.switches)
  }

  lemma StepKeepsGroups(s: State, a: Action)
    requires Inv(s) && Grouped(s) && Enabled(s, a) && RightGroup(s, a)
    ensures Grouped(Next(s, a))
  {
    hide SyncsHonoured, Contiguous, MemHolds, GroupOps, LoggedOps, IsGroup, GroupOk, Tiled, GroupEnd, StartsGroup;
    match a {
      case Enqueue(w) => ArrivalKeepsGroups(s, w);
      case Lead(n) =>
        NewGroup(s, n);
        TiledGrows(s.arrived, s.groups, Group(s.finished, n, |s.arrived|), s.switches);
      case _ =>
    }
  }

  lemma ArrivalKeepsGroups(s: State, w: Writer)
    requires Grouped(s)
    ensures Grouped(s.(queue := s.queue + [w], arrived := s.arrived + [w]))
  {
    hide GroupEnd, StartsGroup, GroupOk;
    forall g | g in s.groups ensures GroupOk(s.arrived + [w], g) && g.start < |s.arrived| {
      assert GroupOk(s.arrived, g);
      SameGroup(s.arrived, [w], g);
    }
  }

  lemma TiledGrows(arrived: seq<Writer>, groups: seq<Group>, g: Group, switches: seq<nat>)
    requires Tiled(arrived, groups) && GroupOk(arrived, g) && g.start == GroupEnd(groups, |groups|)
    requires forall p :: p in switches ==> p == g.start || StartsGroup(groups, p)
    ensures Tiled(arrived, groups + [g]) && GroupEnd(groups + [g], |groups + [g]|) == g.start + g.n
    ensures forall p :: p in switches ==> StartsGroup(groups + [g], p)
  {
    hide GroupOk;
    var more := groups + [g];
    forall k | 0 <= k <= |groups| ensures GroupEnd(more, k) == GroupEnd(groups, k) {
    }
    forall p | p in switches ensures StartsGroup(more, p) {
      if StartsGroup(groups, p) {
        var k :| 0 <= k < |groups| && groups[k].start == p;
        assert more[k].start == p;
      } else {
        assert more[|groups|].start == p;
      }
    }
  }

  lemma SameGroup(arrived: seq<Writer>, more: seq<Writer>, g: Group)
    requires GroupOk(arrived, g)
    ensures GroupOk(arrived + more, g) && g.start < |arrived|
  {
    assert (arrived + more)[g.start..g.seen] == arrived[g.start..g.seen];
  }

  lemma NewGroup(s: State, n: nat)
    requires Inv(s) && Enabled(s, Lead(n)) && RightGroup(s, Lead(n))
    ensures GroupOk(s.arrived, Group(s.finished, n, |s.arrived|)) && s.arrived[s.finished] == s.queue[0]
  {
    hide SyncsHonoured, Contiguous, MemHolds, GroupOps, LoggedOps;
    assert s.arrived[s.finished..|s.arrived|] == s.queue;
    assert s.arrived[s.finished] == s.queue[0];
  }

  lemma {:induction false} RunKeepsGroups(s: State, acts: seq<Action>)
    requires Inv(s) && Grouped(s) && ValidRun(s, acts)
    ensures Inv(After(s, acts)) && Grouped(After(s, acts))
    decreases |acts|
  {
    hide Inv, Grouped, Enabled, RightGroup, Next;
    if acts != [] {
      StepKeeps(s, acts[0]);
      StepKeepsGroups(s, acts[0]);
      RunKeepsGroups(Next(s, acts[0]), acts[1..]);
    }
  }

  // ---------- what a record is ----------

  /** The record of a group: the writes of all its members, synced if its leader asked for it. */
  ghost predicate IsRecordOf(arrived: seq<Writer>, g: Group, r: Record) {
    && g.start + g.n <= |arrived| && 0 < g.n && arrived[g.start].batch.Some?
    && r == Record(Base(arrived, g.start) + 1, GroupOps(arrived[g.start..g.start + g.n]), arrived[g.start].sync)
  }

  ghost predicate HasGroup(s: State, r: Record) {
    exists k :: 0 <= k < |s.groups| && IsRecordOf(s.arrived, s.groups[k], r)
  }

  ghost predicate Recorded(s: State) {
    && (forall r :: r in s.log ==> HasGroup(s, r))
    && (s.phase.Leading? ==>
          && |s.groups| > 0 && s.queue != [] && s.queue[0].batch.Some?
          && s.groups[|s.groups| - 1].start == s.finished && s.groups[|s.groups| - 1].n == s.phase.n)
  }

  lemma StepKeepsRecords(s: State, a: Action)
    requires Inv(s) && Recorded(s) && Enabled(s, a) && RightGroup(s, a)
    ensures Recorded(Next(s, a))
  {
    hide SyncsHonoured, Contiguous, MemHolds, GroupOps, LoggedOps, Base, IsGroup;
    var s' := Next(s, a);
    forall r | r in s.log ensures HasGroup(s', r) {
      assert HasGroup(s, r);
      var k :| 0 <= k < |s.groups| && IsRecordOf(s.arrived, s.groups[k], r);
      RecordStays(s, s', k, r);
    }
    if a.AppendRecord? {
      var r := s'.log[|s.log|];
      var k := |s.groups| - 1;
      assert s.arrived[s.finished..s.finished + s.phase.n] == s.queue[..s.phase.n];
      assert s.arrived[s.finished] == s.queue[0];
      assert IsRecordOf(s'.arrived, s'.groups[k], r);
    }
  }

  lemma RecordStays(s: State, s': State, k: nat, r: Record)
    requires k < |s.groups| && s.groups <= s'.groups && s.arrived <= s'.arrived && IsRecordOf(s.arrived, s.groups[k], r)
    ensures HasGroup(s', r)
  {
    var g := s.groups[k];
    assert s'.groups[k] == g && s'.arrived[g.start] == s.arrived[g.start];
    assert s'.arrived[..g.start] == s.arrived[..g.start];
    assert s'.arrived[g.start..g.start + g.n] == s.arrived[g.start..g.start + g.n];
    assert IsRecordOf(s'.arrived, s'.groups[k], r);
  }

  lemma {:induction false} RunKeepsRecords(s: State, acts: seq<Action>)
    requires Inv(s) && Recorded(s) && ValidRun(s, acts)
    ensures Recorded(After(s, acts))
    decreases |acts|
  {
    hide Inv, Recorded, Enabled, RightGroup, Next;
    if acts != [] {
      StepKeeps(s, acts[0]);
      StepKeepsRecords(s, acts[0]);
      RunKeepsRecords(Next(s, acts[0]), acts[1..]);
    }
  }

  /** Over every interleaving, each record of the log is the record of one group: synced if and only if
      that group's leader asked for it. */
  lemma RecordsAreGroups(acts: seq<Action>, r: Record)
    requires ValidRun(START, acts) && r in After(START, acts).log
    ensures HasGroup(After(START, acts), r)
  {
    StartInv();
    RunKeepsRecords(START, acts);
  }

  /** Position i is carried along by a leader ahead of it: it had arrived when that leader built its
      group, and neither a sync request nor the size limit cuts the queue between them. */
  ghost predicate CarriedBy(arrived: seq<Writer>, g: Group, i: nat)
    requires GroupOk(arrived, g)
  {
    && g.start < i < g.seen && arrived[g.start].batch.Some?
    && forall d :: 0 < d <= i - g.start ==> MayJoin(arrived[g.start..g.seen], d)
  }

  lemma CarriedIsInGroup(arrived: seq<Writer>, g: Group, i: nat)
    requires GroupOk(arrived, g)
    ensures CarriedBy(arrived, g, i) <==> g.start < i < g.start + g.n
  {
  }

  /** Where the groups before the n-th end, and what is between two of them. */
  lemma EndAt(groups: seq<Group>, n: nat)
    requires n <= |groups|
    ensures n == 0 ==> GroupEnd(groups, n) == 0
    ensures n > 0 ==> GroupEnd(groups, n) == groups[n - 1].start + groups[n - 1].n
  {
  }

  lemma {:induction false} GroupOf(s: State, n: nat, i: nat) returns (k: nat)
    requires Tiled(s.arrived, s.groups) && n <= |s.groups| && i < GroupEnd(s.groups, n)
    ensures k < n && s.groups[k].start <= i < s.groups[k].start + s.groups[k].n
  {
    hide GroupEnd, GroupOk;
    EndAt(s.groups, n);
    if s.groups[n - 1].start <= i {
      k := n - 1;
    } else {
      k := GroupOf(s, n - 1, i);
    }
  }

  lemma {:induction false} GroupsApart(s: State, k: nat, n: nat)
    requires Tiled(s.arrived, s.groups) && k < n <= |s.groups|
    ensures s.groups[k].start + s.groups[k].n <= GroupEnd(s.groups, n)
    ensures n < |s.groups| ==> s.groups[k].start + s.groups[k].n <= s.groups[n].start
  {
    hide GroupEnd, GroupOk;
    EndAt(s.groups, n);
    if k + 1 < n {
      GroupsApart(s, k, n - 1);
    }
  }

  lemma OneGroup(s: State, k: nat, l: nat, i: nat)
    requires Tiled(s.arrived, s.groups) && k < |s.groups| && l < |s.groups|
    requires s.groups[k].start <= i < s.groups[k].start + s.groups[k].n
    requires s.groups[l].start <= i < s.groups[l].start + s.groups[l].n
    ensures k == l
  {
    hide Tiled, GroupEnd;
    if k < l {
      GroupsApart(s, k, l);
    } else if l < k {
      GroupsApart(s, l, k);
    }
  }

  /** Over every interleaving: a null request that has returned had the memtable switched at its turn if
      and only if no leader ahead of it carried it along. */
  lemma NullRequestSwitchesIff(acts: seq<Action>, i: nat)
    requires ValidRun(START, acts)
    requires i < After(START, acts).finished && i < |After(START, acts).arrived| && After(START, acts).arrived[i].batch.None?
    ensures var s := After(START, acts);
            && (forall g :: g in s.groups ==> GroupOk(s.arrived, g))
            && (i in s.switches <==> forall g :: g in s.groups ==> !CarriedBy(s.arrived, g, i))
  {
    StartInv();
    RunKeepsGroups(START, acts);
    hide Inv, ValidRun, After;
    SwitchedIff(After(START, acts), i);
  }

  lemma SwitchedIff(s: State, i: nat)
    requires Grouped(s) && i < s.finished && i < |s.arrived| && s.arrived[i].batch.None?
    ensures forall g :: g in s.groups ==> GroupOk(s.arrived, g)
    ensures i in s.switches <==> forall g :: g in s.groups ==> !CarriedBy(s.arrived, g, i)
  {
    hide GroupOk, CarriedBy, GroupEnd, StartsGroup;
    assert forall g :: g in s.groups ==> GroupOk(s.arrived, g);
    var k := GroupOf(s, |s.groups|, i);
    assert s.groups[k] in s.groups;
    forall g | g in s.groups ensures CarriedBy(s.arrived, g, i) <==> g == s.groups[k] && g.start < i {
      var l :| 0 <= l < |s.groups| && s.groups[l] == g;
      CarriedIsInGroup(s.arrived, g, i);
      if g.start < i < g.start + g.n {
        OneGroup(s, k, l, i);
      }
    }
    if i in s.switches {
      SwitchedLeads(s, k, i);
    }
  }

  /** The memtable is only ever switched for a leader. */
  lemma SwitchedLeads(s: State, k: nat, i: nat)
    requires Grouped(s) && k < |s.groups| && i in s.switches
    requires s.groups[k].start <= i < s.groups[k].start + s.groups[k].n
    ensures s.groups[k].start == i
  {
    hide GroupEnd, GroupOk, Tiled;
    GroupsApart(s, k, |s.groups|);
    var l :| 0 <= l < |s.groups| && s.groups[l].start == i;
    assert s.groups[l].n > 0 by { GroupNonempty(s, l); }
    OneGroup(s, k, l, i);
  }

  lemma GroupNonempty(s: State, l: nat)
    requires Grouped(s) && l < |s.groups|
    ensures s.groups[l].n > 0
  {
    assert GroupOk(s.arrived, s.groups[l]);
  }

  /** A write, and behind it a null request that asks for the memtable to be switched. */
  const PUT: Writer := Writer(Some([Op(1, TypeValue, [1])]), 20, false)
  const FLUSH: Writer := Writer(None, 0, false)
  const CARRIED_RUN: seq<Action> := [Enqueue(PUT), Enqueue(FLUSH), Lead(2), AppendRecord, InsertNext, Complete]

  const PUT_OPS: Writes := [Op(1, TypeValue, [1])]
  const QUEUED: State := State([PUT, FLUSH], Waiting, 0, [], {}, [PUT, FLUSH], 0, [], [])
  const LED: State := State([PUT, FLUSH], Leading(2, PUT_OPS, false, 0), 0, [], {}, [PUT, FLUSH], 0, [Group(0, 2, 2)], [])
  const LOGGED: State := LED.(phase := Leading(2, PUT_OPS, true, 0), log := [Record(1, PUT_OPS, false)])
  const INSERTED: State := LOGGED.(phase := Leading(2, PUT_OPS, true, 1), mem := {(1, PUT_OPS[0])})
  const RETURNED: State := State([], Waiting, 1, INSERTED.log, INSERTED.mem, [PUT, FLUSH], 2, [Group(0, 2, 2)], [])

  lemma QueuedSteps()
    ensures Next(Next(START, Enqueue(PUT)), Enqueue(FLUSH)) == QUEUED
    ensures Enabled(QUEUED, Lead(2)) && RightGroup(QUEUED, Lead(2)) && Next(QUEUED, Lead(2)) == LED
  {
    PairIsGroup();
    hide IsGroup, GroupOps;
    assert [] + [PUT] == [PUT] && [PUT] + [FLUSH] == [PUT, FLUSH] && [PUT, FLUSH][..2] == [PUT, FLUSH];
    assert [] + [Group(0, 2, 2)] == [Group(0, 2, 2)];
  }

  lemma CarriedSteps()
    ensures Enabled(LED, AppendRecord) && Next(LED, AppendRecord) == LOGGED
    ensures Enabled(LOGGED, InsertNext) && Next(LOGGED, InsertNext) == INSERTED
    ensures Enabled(INSERTED, Complete) && Next(INSERTED, Complete) == RETURNED
  {
    assert [] + [Record(1, PUT_OPS, false)] == [Record(1, PUT_OPS, false)] && {} + {(1, PUT_OPS[0])} == {(1, PUT_OPS[0])};
    assert [PUT, FLUSH][2..] == [];
  }

  /** Carried along by the write, the request returns and no memtable has been switched: the write it
      should have flushed is still in the current one. */
  lemma CarriedRequestIsNotServed()
    ensures ValidRun(START, CARRIED_RUN)
    ensures var s := After(START, CARRIED_RUN);
            s.queue == [] && s.finished == 2 && s.arrived == [PUT, FLUSH] && s.switches == [] && s.lastSequence == 1
  {
    QueuedSteps();
    CarriedSteps();
    var last2, last3, last4, last5 := [InsertNext, Complete], [AppendRecord, InsertNext, Complete],
      [Lead(2), AppendRecord, InsertNext, Complete], [Enqueue(FLUSH), Lead(2), AppendRecord, InsertNext, Complete];
    assert CARRIED_RUN == [Enqueue(PUT)] + last5 && last5 == [Enqueue(FLUSH)] + last4 && last4 == [Lead(2)] + last3;
    assert last3 == [AppendRecord] + last2 && last2 == [InsertNext] + [Complete] && [Complete] == [Complete] + [];
    assert ValidRun(RETURNED, []) && After(RETURNED, []) == RETURNED;
    var one := Next(START, Enqueue(PUT));
    hide ValidRun, After, Next, IsGroup;
    RunFrom(INSERTED, Complete, []);
    RunFrom(LOGGED, InsertNext, [Complete]);
    RunFrom(LED, AppendRecord, last2);
    RunFrom(QUEUED, Lead(2), last3);
    RunFrom(one, Enqueue(FLUSH), last4);
    RunFrom(START, Enqueue(PUT), last5);
  }

  lemma RunFrom(s: State, a: Action, acts: seq<Action>)
    requires Enabled(s, a) && RightGroup(s, a) && ValidRun(Next(s, a), acts)
    ensures ValidRun(s, [a] + acts) && After(s, [a] + acts) == After(Next(s, a), acts)
  {
    assert ([a] + acts)[1..] == acts;
  }

  lemma PairIsGroup()
    ensures IsGroup([PUT, FLUSH], 2) && GroupOps([PUT, FLUSH]) == [Op(1, TypeValue, [1])]
  {
    assert [PUT, FLUSH][..1] == [PUT] && [PUT][..0] == [];
    assert GroupOps([]) == [] && GroupOps([PUT]) == PUT_OPS && PUT_OPS + [] == PUT_OPS;
    assert GroupOps([PUT, FLUSH]) == GroupOps([PUT]) + OpsOf(FLUSH);
  }

  // ---------- the limits of a group, in numbers ----------

  /** Bytes of the batches of the first n writers. */
  function BytesOf(queue: seq<Writer>, n: nat): nat
    requires n <= |queue|
  {
    if n == 0 then 0 else BytesOf(queue, n - 1) + (if queue[n - 1].batch.Some? then queue[n - 1].size else 0)
  }

  lemma {:induction false} TotalIsBytes(queue: seq<Writer>, n: nat)
    requires n <= |queue|
    ensures TotalSize(queue[..n]) == BytesOf(queue, n)
  {
    if n > 0 {
      TotalIsBytes(queue, n - 1);
      assert queue[..n][..n - 1] == queue[..n - 1];
    }
  }

  /** A group grows until the next writer would not fit: behind a first batch of at most 128 KB that is 128 KB
      more, behind a larger one 1 MB in all; and a request to sync does not ride behind one that does not. */
  lemma GroupLimits(queue: seq<Writer>, n: nat)
    requires IsGroup(queue, n) && queue[0].batch.Some?
    ensures var limit := if queue[0].size <= 131072 then queue[0].size + 131072 else 1048576;
            && (forall e :: 1 < e <= n && queue[e - 1].batch.Some? ==> BytesOf(queue, e) <= limit)
            && (forall i :: 0 < i < n && queue[i].sync ==> queue[0].sync)
            && (n < |queue| ==> (queue[n].sync && !queue[0].sync) || (queue[n].batch.Some? && BytesOf(queue, n + 1) > limit))
  {
    if n < |queue| {
      TotalIsBytes(queue, n + 1);
    }
    forall e | 1 < e <= n && queue[e - 1].batch.Some? ensures BytesOf(queue, e) <= MaxSize(queue[0]) {
      TotalIsBytes(queue, e);
      assert MayJoin(queue, e - 1);
    }
    forall i | 0 < i < n && queue[i].sync ensures queue[0].sync {
      assert MayJoin(queue, i);
    }
  }

  // ---------- the queue empties ----------

  /** From any state, and with no further arrivals, every queued writer can be served. */
  lemma QueueDrains(s: State) returns (acts: seq<Action>)
    requires Inv(s)
    ensures ValidRun(s, acts) && Inv(After(s, acts))
    ensures After(s, acts).queue == [] && After(s, acts).phase.Waiting?
    ensures After(s, acts).arrived == s.arrived && After(s, acts).finished == |s.arrived|
    decreases |s.queue|,
      if s.phase.Waiting? then if s.queue != [] && s.queue[0].batch.None? && s.finished in s.switches then 2 else 3
      else if !s.phase.logged then 1 else 0,
      if s.phase.Leading? then |s.phase.ops| - s.phase.inserted else 0
  {
    if s.phase.Waiting? && s.queue == [] {
      DrainedAll(s);
      return [];
    }
    var a := Serving(s);
    StepKeeps(s, a);
    hide Inv, IsGroup, GroupOps, ValidRun, After, RightGroup;
    acts := QueueDrains(Next(s, a));
    RunFrom(s, a, acts);
    acts := [a] + acts;
  }

  lemma DrainedAll(s: State)
    requires Inv(s) && s.queue == []
    ensures s.finished == |s.arrived|
  {
    hide SyncsHonoured, Contiguous, MemHolds, LoggedOps, GroupOps;
    assert |s.arrived[s.finished..]| == |s.arrived| - s.finished;
  }

  /** What the thread at the front does next. */
  lemma Serving(s: State) returns (a: Action)
    requires Inv(s) && (s.phase.Leading? || s.queue != [])
    ensures Enabled(s, a) && RightGroup(s, a) && !a.Enqueue?
    ensures s.phase.Waiting? ==> a == Switch || (a.Lead? && a.n > 0)
    ensures a == Switch ==> s.phase.Waiting? && s.queue[0].batch.None? && s.finished !in s.switches
    ensures a == Complete ==> 0 < s.phase.n
  {
    hide SyncsHonoured, Contiguous, MemHolds, LoggedOps, GroupOps;
    if s.phase.Leading? {
      a := if !s.phase.logged then AppendRecord else if s.phase.inserted < |s.phase.ops| then InsertNext else Complete;
    } else if s.queue[0].batch.None? {
      a := if s.finished in s.switches then Lead(1) else Switch;
    } else {
      var n := GroupExists(s.queue, 1);
      a := Lead(n);
    }
  }

  lemma GroupExists(queue: seq<Writer>, m: nat) returns (n: nat)
    requires 0 < m <= |queue| && forall i :: 0 < i < m ==> MayJoin(queue, i)
    ensures IsGroup(queue, n)
    decreases |queue| - m
  {
    if m < |queue| && MayJoin(queue, m) {
      n := GroupExists(queue, m + 1);
    } else {
      n := m;
    }
  }
}
