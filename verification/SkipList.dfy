/** The memtable's skip list (db/skiplist.h): one writer at a time, readers without locks.
    A key stands for its rank in the comparator's order. Nodes are numbered as they are allocated;
    node 0 is the head. The nodes linked at each level are kept beside the memory as sets. */
module SkipLists {
  type Key = int

  const MAX_HEIGHT: nat := 12

  /** A next pointer: not yet written, null, or a node. */
  datatype Link = Garbage | Null | To(node: nat)

  datatype Mem = Mem(keys: seq<Key>, next: seq<seq<Link>>, maxHeight: nat)

  type Levels = seq<set<nat>>

  /** Node a comes before node b; the head comes before every other node. */
  predicate Before(keys: seq<Key>, a: nat, b: nat)
    requires a < |keys| && b < |keys|
  {
    b != 0 && (a == 0 || keys[a] < keys[b])
  }

  function SetNext(m: Mem, n: nat, level: nat, link: Link): Mem
    requires n < |m.next| && level < |m.next[n]|
  {
    m.(next := m.next[n := m.next[n][level := link]])
  }

  // ---------- the structure ----------

  ghost predicate Shape(m: Mem) {
    && |m.keys| == |m.next| > 0
    && 1 <= m.maxHeight <= MAX_HEIGHT && |m.next[0]| == MAX_HEIGHT
    && forall n :: 0 <= n < |m.next| ==> 1 <= |m.next[n]| <= MAX_HEIGHT
  }

  /** The members of s are nodes other than the head, with distinct keys. */
  ghost predicate Nodes(keys: seq<Key>, s: set<nat>) {
    && (forall n :: n in s ==> 0 < n < |keys|)
    && (forall a, b :: a in s && b in s && keys[a] == keys[b] ==> a == b)
  }

  /** `link` leads to the first member of s after n. */
  ghost predicate IsSuccessor(keys: seq<Key>, s: set<nat>, n: nat, link: Link)
    requires n < |keys| && Nodes(keys, s)
  {
    match link
    case Garbage => false
    case Null => forall y :: y in s ==> !Before(keys, n, y)
    case To(z) => z in s && Before(keys, n, z) && forall y :: y in s && Before(keys, n, y) ==> y == z || Before(keys, z, y)
  }

  /** p is the last member of s, or the head, with a key below `key`. */
  ghost predicate IsPrev(keys: seq<Key>, s: set<nat>, p: nat, key: Key)
    requires Nodes(keys, s)
  {
    && (p == 0 || (p in s && keys[p] < key)) && p < |keys|
    && forall y :: y in s && Before(keys, p, y) ==> keys[y] >= key
  }

  /** The links at level l run through exactly the members of s, in key order. */
  ghost predicate LevelOk(m: Mem, s: set<nat>, l: nat)
    requires Shape(m) && l < MAX_HEIGHT
  {
    && Nodes(m.keys, s)
    && (l >= m.maxHeight ==> s == {})
    && (forall n :: n in s ==> l < |m.next[n]|)
    && forall n :: n == 0 || n in s ==> IsSuccessor(m.keys, s, n, m.next[n][l])
  }

  /** Every level is a sorted list, and a sublist of every level below. */
  ghost predicate ListOk(m: Mem, ls: Levels) {
    && Shape(m) && |ls| == MAX_HEIGHT
    && (forall l :: 0 <= l < MAX_HEIGHT ==> LevelOk(m, ls[l], l))
    && (forall k, l :: 0 <= k <= l < MAX_HEIGHT ==> ls[l] <= ls[k])
  }

  // ---------- the writer ----------

  /** Insert under way: the new node is linked below `level`; `ready` once its own pointer at
      `level` has been written. */
  datatype Writer = Idle | Linking(x: nat, prev: seq<nat>, level: nat, ready: bool)

  function Allocate(m: Mem, key: Key, height: nat): Mem {
    Mem(m.keys + [key], m.next + [seq(height, _ => Garbage)], if height > m.maxHeight then height else m.maxHeight)
  }

  ghost predicate CanInsert(m: Mem, ls: Levels, key: Key, height: nat, prev: seq<nat>)
    requires ListOk(m, ls)
  {
    && 1 <= height <= MAX_HEIGHT && |prev| == height
    && LevelOk(m, ls[0], 0)
    && (forall n :: n in ls[0] ==> m.keys[n] != key)
    && (forall l :: 0 <= l < height ==> LevelOk(m, ls[l], l) && IsPrev(m.keys, ls[l], prev[l], key))
  }

  ghost predicate WriterOk(m: Mem, ls: Levels, w: Writer)
    requires ListOk(m, ls)
  {
    w.Linking? ==>
      && 0 < w.x < |m.keys| && |w.prev| == |m.next[w.x]| <= m.maxHeight && w.level < |w.prev|
      && (forall l :: 0 <= l < MAX_HEIGHT ==> (w.x in ls[l] <==> l < w.level))
      && LevelOk(m, ls[0], 0)
      && (forall n :: n in ls[0] && m.keys[n] == m.keys[w.x] ==> n == w.x)
      && (forall l :: w.level <= l < |w.prev| ==> LevelOk(m, ls[l], l) && IsPrev(m.keys, ls[l], w.prev[l], m.keys[w.x]))
      && (w.ready ==> m.next[w.x][w.level] == m.next[w.prev[w.level]][w.level])
  }

  lemma AllocateLevel(m: Mem, s: set<nat>, l: nat, key: Key, height: nat)
    requires Shape(m) && l < MAX_HEIGHT && LevelOk(m, s, l) && 1 <= height <= MAX_HEIGHT
    ensures Shape(Allocate(m, key, height)) && LevelOk(Allocate(m, key, height), s, l)
  {
    var m' := Allocate(m, key, height);
    forall n | n == 0 || n in s ensures IsSuccessor(m'.keys, s, n, m'.next[n][l]) {
      assert IsSuccessor(m.keys, s, n, m.next[n][l]);
    }
  }

  lemma AllocateKeeps(m: Mem, ls: Levels, key: Key, height: nat, prev: seq<nat>)
    requires ListOk(m, ls) && CanInsert(m, ls, key, height, prev)
    ensures ListOk(Allocate(m, key, height), ls)
    ensures WriterOk(Allocate(m, key, height), ls, Linking(|m.keys|, prev, 0, false))
  {
    var m' := Allocate(m, key, height);
    assert Shape(m') by { AllocateLevel(m, ls[0], 0, key, height); }
    forall l | 0 <= l < MAX_HEIGHT ensures LevelOk(m', ls[l], l) && |m.keys| !in ls[l] {
      AllocateLevel(m, ls[l], l, key, height);
    }
    forall l | 0 <= l < height ensures IsPrev(m'.keys, ls[l], prev[l], key) {
      assert IsPrev(m.keys, ls[l], prev[l], key);
    }
  }

  /** A store at one level leaves the other levels alone. */
  lemma OtherLevel(m: Mem, s: set<nat>, l: nat, n: nat, level: nat, link: Link)
    requires Shape(m) && l < MAX_HEIGHT && LevelOk(m, s, l) && n < |m.next| && level < |m.next[n]|
    requires l != level || (n != 0 && n !in s)
    ensures Shape(SetNext(m, n, level, link)) && LevelOk(SetNext(m, n, level, link), s, l)
  {
    var m' := SetNext(m, n, level, link);
    forall k | k == 0 || k in s ensures IsSuccessor(m'.keys, s, k, m'.next[k][l]) {
      assert IsSuccessor(m.keys, s, k, m.next[k][l]);
    }
  }

  /** First half of linking a level: the new node points at its successor; nobody can see it yet. */
  lemma PrepareKeeps(m: Mem, ls: Levels, w: Writer)
    requires ListOk(m, ls) && WriterOk(m, ls, w) && w.Linking? && !w.ready
    ensures w.x < |m.next| && w.level < |m.next[w.x]|
    ensures w.prev[w.level] < |m.next| && w.level < |m.next[w.prev[w.level]]|
    ensures var m' := SetNext(m, w.x, w.level, m.next[w.prev[w.level]][w.level]);
            ListOk(m', ls) && WriterOk(m', ls, w.(ready := true))
  {
    var p := w.prev[w.level];
    assert IsPrev(m.keys, ls[w.level], p, m.keys[w.x]);
    var link := m.next[p][w.level];
    var m' := SetNext(m, w.x, w.level, link);
    assert Shape(m') by { OtherLevel(m, ls[w.level], w.level, w.x, w.level, link); }
    forall l | 0 <= l < MAX_HEIGHT ensures LevelOk(m', ls[l], l) {
      OtherLevel(m, ls[l], l, w.x, w.level, link);
    }
    forall l | w.level <= l < |w.prev| ensures IsPrev(m'.keys, ls[l], w.prev[l], m.keys[w.x]) {
      assert IsPrev(m.keys, ls[l], w.prev[l], m.keys[w.x]);
    }
  }

  function Published(w: Writer): Writer
    requires w.Linking?
  {
    if w.level + 1 == |w.prev| then Idle else w.(level := w.level + 1, ready := false)
  }

  /** Who follows whom once x has joined s right after p. */
  lemma SuccessorsAfterInsert(keys: seq<Key>, s: set<nat>, p: nat, x: nat, link: Link, n: nat, was: Link)
    requires Nodes(keys, s) && 0 < x < |keys| && IsPrev(keys, s, p, keys[x])
    requires forall y :: y in s ==> keys[y] != keys[x]
    requires IsSuccessor(keys, s, p, link) && (n == 0 || n in s) && IsSuccessor(keys, s, n, was)
    ensures Nodes(keys, s + {x})
    ensures IsSuccessor(keys, s + {x}, p, To(x))
    ensures IsSuccessor(keys, s + {x}, x, link)
    ensures n != p ==> IsSuccessor(keys, s + {x}, n, was)
  {
    if n != p && Before(keys, n, x) {
      assert Before(keys, n, p);
    }
  }

  /** One store makes node x a member of the level, in its place. */
  lemma PublishLevel(m: Mem, s: set<nat>, l: nat, p: nat, x: nat)
    requires Shape(m) && l < m.maxHeight && LevelOk(m, s, l)
    requires 0 < x < |m.keys| && l < |m.next[x]| && IsPrev(m.keys, s, p, m.keys[x])
    requires forall n :: n in s ==> m.keys[n] != m.keys[x]
    requires m.next[x][l] == m.next[p][l]
    ensures Shape(SetNext(m, p, l, To(x))) && LevelOk(SetNext(m, p, l, To(x)), s + {x}, l)
  {
    var m' := SetNext(m, p, l, To(x));
    forall n | n == 0 || n in s + {x}
      ensures Nodes(m.keys, s + {x}) && IsSuccessor(m.keys, s + {x}, n, m'.next[n][l])
    {
      var k := if n == x then p else n;
      SuccessorsAfterInsert(m.keys, s, p, x, m.next[p][l], k, m.next[k][l]);
    }
  }

  /** The writer's facts about the level it is on. */
  lemma WriterAtLevel(m: Mem, ls: Levels, w: Writer)
    requires ListOk(m, ls) && WriterOk(m, ls, w) && w.Linking?
    ensures w.prev[w.level] < |m.next| && w.level < |m.next[w.prev[w.level]]|
    ensures LevelOk(m, ls[w.level], w.level) && IsPrev(m.keys, ls[w.level], w.prev[w.level], m.keys[w.x])
    ensures forall n :: n in ls[w.level] ==> m.keys[n] != m.keys[w.x]
  {
    assert LevelOk(m, ls[w.level], w.level);
    assert ls[w.level] <= ls[0] && w.x !in ls[w.level];
  }

  /** Second half: one store makes the node reachable at this level, in its place. */
  lemma PublishKeepsList(m: Mem, ls: Levels, w: Writer)
    requires ListOk(m, ls) && WriterOk(m, ls, w) && w.Linking? && w.ready
    ensures w.prev[w.level] < |m.next| && w.level < |m.next[w.prev[w.level]]|
    ensures ListOk(SetNext(m, w.prev[w.level], w.level, To(w.x)), ls[w.level := ls[w.level] + {w.x}])
  {
    hide LevelOk, IsPrev, IsSuccessor, Nodes;
    var l0, p, x := w.level, w.prev[w.level], w.x;
    WriterAtLevel(m, ls, w);
    PublishLevel(m, ls[l0], l0, p, x);
    var m' := SetNext(m, p, l0, To(x));
    var ls' := ls[l0 := ls[l0] + {x}];
    forall l | 0 <= l < MAX_HEIGHT ensures LevelOk(m', ls'[l], l) {
      if l != l0 {
        OtherLevel(m, ls[l], l, p, l0, To(x));
      }
    }
  }

  lemma PublishKeepsWriter(m: Mem, ls: Levels, w: Writer)
    requires ListOk(m, ls) && WriterOk(m, ls, w) && w.Linking? && w.ready
    requires w.prev[w.level] < |m.next| && w.level < |m.next[w.prev[w.level]]|
    requires ListOk(SetNext(m, w.prev[w.level], w.level, To(w.x)), ls[w.level := ls[w.level] + {w.x}])
    ensures WriterOk(SetNext(m, w.prev[w.level], w.level, To(w.x)), ls[w.level := ls[w.level] + {w.x}], Published(w))
  {
    hide IsPrev, IsSuccessor;
    var ls' := ls[w.level := ls[w.level] + {w.x}];
    forall l | w.level < l < |w.prev| ensures IsPrev(m.keys, ls'[l], w.prev[l], m.keys[w.x]) {
      assert IsPrev(m.keys, ls[l], w.prev[l], m.keys[w.x]);
    }
  }

  // ---------- readers ----------

  /** What a search is after: the first key at or after a target (Seek, Contains), the last key
      before one (Prev), or the last key (SeekToLast). */
  datatype Goal = AtLeast(key: Key) | Below(key: Key) | Last

  /** A search stands on node x at a level; when finished it holds its answer, Null for none. */
  datatype Reader = Searching(goal: Goal, x: nat, level: nat) | Found(goal: Goal, answer: Link)

  /** Whether a search moves on to a node with this key. */
  predicate Passes(goal: Goal, key: Key) {
    goal.Last? || key < goal.key
  }

  /** The answer a sorted set of keys gives. */
  ghost predicate IsAnswer(keys: seq<Key>, s: set<nat>, goal: Goal, answer: Link)
    requires Nodes(keys, s)
  {
    match answer
    case Garbage => false
    case Null => forall y :: y in s ==> Passes(goal, keys[y]) == goal.AtLeast?
    case To(z) =>
      && z in s && Passes(goal, keys[z]) == !goal.AtLeast?
      && forall y :: y in s && Passes(goal, keys[y]) == !goal.AtLeast? ==>
           y == z || (if goal.AtLeast? then keys[z] < keys[y] else keys[y] < keys[z])
  }

  /** One iteration of the search loops: one pointer is read. */
  function SearchStep(m: Mem, r: Reader): Reader
    requires r.Searching? && r.x < |m.next| && r.level < |m.next[r.x]|
  {
    var next := m.next[r.x][r.level];
    if next.To? && next.node < |m.keys| && Passes(r.goal, m.keys[next.node]) then r.(x := next.node)
    else if r.level > 0 then r.(level := r.level - 1)
    else if r.goal.AtLeast? then Found(r.goal, next)
    else Found(r.goal, if r.x == 0 then Null else To(r.x))
  }

  ghost predicate ReaderOk(m: Mem, ls: Levels, r: Reader)
    requires ListOk(m, ls)
  {
    r.Searching? ==>
      && r.level < MAX_HEIGHT && LevelOk(m, ls[r.level], r.level)
      && (r.x == 0 || (r.x in ls[r.level] && Passes(r.goal, m.keys[r.x])))
  }

  /** A search never follows an unwritten pointer, and when it ends its answer is exactly right for
      the keys linked at that moment. */
  lemma SearchStepOk(m: Mem, ls: Levels, r: Reader)
    requires ListOk(m, ls) && ReaderOk(m, ls, r) && r.Searching?
    ensures r.x < |m.next| && r.level < |m.next[r.x]| && !m.next[r.x][r.level].Garbage?
    ensures ReaderOk(m, ls, SearchStep(m, r))
    ensures SearchStep(m, r).Found? ==> Nodes(m.keys, ls[0]) && IsAnswer(m.keys, ls[0], r.goal, SearchStep(m, r).answer)
  {
    assert LevelOk(m, ls[r.level], r.level);
    var next := m.next[r.x][r.level];
    assert IsSuccessor(m.keys, ls[r.level], r.x, next);
    if r.level > 0 {
      assert ls[r.level] <= ls[r.level - 1] && LevelOk(m, ls[r.level - 1], r.level - 1);
    }
  }

  // ---------- all interleavings ----------

  datatype Action =
    | BeginInsert(key: Key, height: nat, prev: seq<nat>) | PrepareLink | PublishLink
    | StartSearch(goal: Goal) | StepSearch(i: nat)

  /** Memory, the writer and the readers; beside them, what each level links and what was linked
      when each search started. */
  datatype State = State(mem: Mem, writer: Writer, readers: seq<Reader>, levels: Levels, started: seq<set<nat>>)

  /** Writers are serialised by the caller, and never insert a key twice; `prev` is what the
      writer's own search filled in. */
  ghost predicate Enabled(st: State, a: Action)
    requires ListOk(st.mem, st.levels)
  {
    match a
    case BeginInsert(key, height, prev) => st.writer.Idle? && CanInsert(st.mem, st.levels, key, height, prev)
    case PrepareLink => st.writer.Linking? && !st.writer.ready && WriterOk(st.mem, st.levels, st.writer)
    case PublishLink => st.writer.Linking? && st.writer.ready && WriterOk(st.mem, st.levels, st.writer)
    case StartSearch(_) => true
    case StepSearch(i) => i < |st.readers| && st.readers[i].Searching? && ReaderOk(st.mem, st.levels, st.readers[i])
  }

  ghost function Next(st: State, a: Action): State
    requires ListOk(st.mem, st.levels) && Enabled(st, a)
  {
    var m, w := st.mem, st.writer;
    match a
    case BeginInsert(key, height, prev) =>
      st.(mem := Allocate(m, key, height), writer := Linking(|m.keys|, prev, 0, false))
    case PrepareLink =>
      WriterAtLevel(m, st.levels, w);
      st.(mem := SetNext(m, w.x, w.level, m.next[w.prev[w.level]][w.level]), writer := w.(ready := true))
    case PublishLink =>
      WriterAtLevel(m, st.levels, w);
      st.(mem := SetNext(m, w.prev[w.level], w.level, To(w.x)), writer := Published(w),
          levels := st.levels[w.level := st.levels[w.level] + {w.x}])
    case StartSearch(goal) =>
      st.(readers := st.readers + [Searching(goal, 0, m.maxHeight - 1)], started := st.started + [st.levels[0]])
    case StepSearch(i) =>
      SearchStepOk(m, st.levels, st.readers[i]);
      st.(readers := st.readers[i := SearchStep(m, st.readers[i])])
  }

  /** No key in `started` answers the search better than its answer does. */
  ghost predicate MissesNone(keys: seq<Key>, s: set<nat>, started: set<nat>, goal: Goal, answer: Link)
    requires Nodes(keys, s) && started <= s
  {
    && !answer.Garbage?
    && (answer.To? ==> answer.node in s && Passes(goal, keys[answer.node]) == !goal.AtLeast?)
    && forall y :: y in started && Passes(goal, keys[y]) == !goal.AtLeast? ==>
         answer.To? && (if goal.AtLeast? then keys[answer.node] <= keys[y] else keys[y] <= keys[answer.node])
  }

  ghost predicate ReaderInv(m: Mem, ls: Levels, r: Reader, started: set<nat>)
    requires ListOk(m, ls)
  {
    && ReaderOk(m, ls, r)
    && LevelOk(m, ls[0], 0) && started <= ls[0]
    && (r.Found? ==> MissesNone(m.keys, ls[0], started, r.goal, r.answer))
  }

  ghost predicate Inv(st: State) {
    && ListOk(st.mem, st.levels) && WriterOk(st.mem, st.levels, st.writer)
    && |st.readers| == |st.started|
    && forall i :: 0 <= i < |st.readers| ==> ReaderInv(st.mem, st.levels, st.readers[i], st.started[i])
  }

  /** A reader's facts survive anything the writer does: nodes keep their keys and levels grow. */
  lemma ReaderStable(m: Mem, ls: Levels, m': Mem, ls': Levels, r: Reader, started: set<nat>)
    requires ListOk(m, ls) && ListOk(m', ls') && ReaderInv(m, ls, r, started)
    requires m.keys <= m'.keys
    requires forall l :: 0 <= l < MAX_HEIGHT ==> ls[l] <= ls'[l]
    ensures ReaderInv(m', ls', r, started)
  {
    assert LevelOk(m', ls'[0], 0);
    if r.Searching? {
      assert LevelOk(m', ls'[r.level], r.level) && LevelOk(m, ls[r.level], r.level);
    }
  }

  lemma WriterStepKeeps(st: State, a: Action)
    requires Inv(st) && Enabled(st, a) && !a.StartSearch? && !a.StepSearch?
    ensures Inv(Next(st, a))
    ensures st.mem.keys <= Next(st, a).mem.keys
    ensures forall l :: 0 <= l < MAX_HEIGHT ==> st.levels[l] <= Next(st, a).levels[l]
  {
    hide ListOk, WriterOk, ReaderInv, CanInsert;
    var m, ls, w := st.mem, st.levels, st.writer;
    var st' := Next(st, a);
    assert ListOk(st'.mem, st'.levels) && WriterOk(st'.mem, st'.levels, st'.writer) by {
      match a {
        case BeginInsert(key, height, prev) => AllocateKeeps(m, ls, key, height, prev);
        case PrepareLink => PrepareKeeps(m, ls, w);
        case PublishLink =>
          PublishKeepsList(m, ls, w);
          PublishKeepsWriter(m, ls, w);
      }
    }
    assert |ls| == |st'.levels| == MAX_HEIGHT by { LevelCount(m, ls); LevelCount(st'.mem, st'.levels); }
    forall i | 0 <= i < |st'.readers| ensures ReaderInv(st'.mem, st'.levels, st'.readers[i], st'.started[i]) {
      ReaderStable(m, ls, st'.mem, st'.levels, st.readers[i], st.started[i]);
    }
  }

  lemma LevelCount(m: Mem, ls: Levels)
    requires ListOk(m, ls)
    ensures |ls| == MAX_HEIGHT
  {
  }

  lemma AnswerMissesNone(m: Mem, ls: Levels, r: Reader, started: set<nat>)
    requires ListOk(m, ls) && ReaderInv(m, ls, r, started) && r.Searching?
    ensures r.x < |m.next| && r.level < |m.next[r.x]|
    ensures ReaderInv(m, ls, SearchStep(m, r), started)
  {
    SearchStepOk(m, ls, r);
  }

  /** Every step, of the writer or of a reader, keeps the list and every search sound. */
  lemma StepKeeps(st: State, a: Action)
    requires Inv(st) && Enabled(st, a)
    ensures Inv(Next(st, a))
    ensures st.mem.keys <= Next(st, a).mem.keys && st.levels[0] <= Next(st, a).levels[0]
  {
    match a {
      case StartSearch(goal) =>
        assert LevelOk(st.mem, st.levels[0], 0) && LevelOk(st.mem, st.levels[st.mem.maxHeight - 1], st.mem.maxHeight - 1);
      case StepSearch(i) =>
        AnswerMissesNone(st.mem, st.levels, st.readers[i], st.started[i]);
      case _ =>
        WriterStepKeeps(st, a);
    }
  }

  /** What each thread checks for itself before a step, without any claim about the list. */
  ghost predicate Guard(st: State, a: Action)
    requires ListOk(st.mem, st.levels)
  {
    match a
    case BeginInsert(key, height, prev) => st.writer.Idle? && CanInsert(st.mem, st.levels, key, height, prev)
    case PrepareLink => st.writer.Linking? && !st.writer.ready
    case PublishLink => st.writer.Linking? && st.writer.ready
    case StartSearch(_) => true
    case StepSearch(i) => i < |st.readers| && st.readers[i].Searching?
  }

  /** A run of steps whose guards hold, for as long as the list is in order. */
  ghost predicate GuardedRun(st: State, acts: seq<Action>)
    decreases |acts|
  {
    acts == [] || (ListOk(st.mem, st.levels) ==>
      Guard(st, acts[0]) && (Enabled(st, acts[0]) ==> GuardedRun(Next(st, acts[0]), acts[1..])))
  }

  /** No thread is ever stopped by more than its own guard: the facts about the list that a step relies on
      hold in every state. */
  lemma {:induction false} GuardsSuffice(st: State, acts: seq<Action>)
    requires Inv(st) && GuardedRun(st, acts)
    ensures ValidRun(st, acts)
    decreases |acts|
  {
    hide ListOk, WriterOk, ReaderOk, Next, CanInsert;
    if acts != [] {
      assert Enabled(st, acts[0]);
      StepKeeps(st, acts[0]);
      GuardsSuffice(Next(st, acts[0]), acts[1..]);
    }
  }

  const EMPTY_LIST: Mem :=
    Mem([0], [[Null, Null, Null, Null, Null, Null, Null, Null, Null, Null, Null, Null]], 1)

  const NO_LEVELS: Levels := [{}, {}, {}, {}, {}, {}, {}, {}, {}, {}, {}, {}]

  const INITIAL: State := State(EMPTY_LIST, Idle, [], NO_LEVELS, [])

  lemma InitialInv()
    ensures Inv(INITIAL)
  {
    assert NO_LEVELS[0] == {};
  }

  ghost predicate ValidRun(st: State, acts: seq<Action>)
    decreases |acts|
  {
    acts == [] || (ListOk(st.mem, st.levels) && Enabled(st, acts[0]) && ValidRun(Next(st, acts[0]), acts[1..]))
  }

  ghost function After(st: State, acts: seq<Action>): State
    requires ValidRun(st, acts)
    decreases |acts|
  {
    if acts == [] then st else After(Next(st, acts[0]), acts[1..])
  }

  /** Over every interleaving of inserts and searches, for any node heights, at every step: each
      level is a sorted sublist of the one below, and a search that has ended missed none of the
      keys present when it started. */
  lemma {:induction false} RunKeeps(st: State, acts: seq<Action>)
    requires Inv(st) && ValidRun(st, acts)
    ensures Inv(After(st, acts))
    ensures st.levels[0] <= After(st, acts).levels[0]
    decreases |acts|
  {
    if acts != [] {
      StepKeeps(st, acts[0]);
      RunKeeps(Next(st, acts[0]), acts[1..]);
    }
  }

  // ---------- the operations, run without interference ----------

  /** Nodes of a level that a search standing on x has not passed: what makes it terminate. */
  ghost function Rest(keys: seq<Key>, s: set<nat>, x: nat): set<nat>
    requires Nodes(keys, s) && x < |keys|
  {
    set y | y in s && Before(keys, x, y)
  }

  lemma RestShrinks(keys: seq<Key>, s: set<nat>, x: nat, next: nat)
    requires Nodes(keys, s) && x < |keys| && IsSuccessor(keys, s, x, To(next))
    ensures |Rest(keys, s, next)| < |Rest(keys, s, x)|
  {
    var a, b := Rest(keys, s, next), Rest(keys, s, x);
    assert a <= b && next in b && next !in a;
    assert a <= b - {next};
    Cardinality(a, b - {next});
  }

  lemma {:induction false} Cardinality(a: set<nat>, b: set<nat>)
    requires a <= b
    ensures |a| <= |b|
  {
    if a != {} {
      var x :| x in a;
      Cardinality(a - {x}, b - {x});
    }
  }

  // ---------- every operation comes to its end ----------

  /** A step that does not end the search brings it closer: down a level, or past a node on its level. */
  lemma SearchStepCloser(m: Mem, ls: Levels, r: Reader)
    requires ListOk(m, ls) && ReaderOk(m, ls, r) && r.Searching?
    ensures r.x < |m.next| && r.level < |m.next[r.x]|
    ensures Nodes(m.keys, ls[r.level])
    ensures var r' := SearchStep(m, r);
            r'.Searching? ==> r'.level < r.level || (r'.level == r.level && r'.x < |m.keys|
                                && |Rest(m.keys, ls[r.level], r'.x)| < |Rest(m.keys, ls[r.level], r.x)|)
  {
    SearchStepOk(m, ls, r);
    assert LevelOk(m, ls[r.level], r.level);
    var next := m.next[r.x][r.level];
    assert IsSuccessor(m.keys, ls[r.level], r.x, next);
    if next.To? {
      RestShrinks(m.keys, ls[r.level], r.x, next.node);
    }
  }

  /** However a search has got where it is, its own next steps lead it to its answer. */
  lemma {:induction false} SearchEnds(st: State, i: nat) returns (acts: seq<Action>)
    requires Inv(st) && i < |st.readers| && st.readers[i].Searching?
    ensures ValidRun(st, acts) && (forall a :: a in acts ==> a == StepSearch(i))
    ensures Inv(After(st, acts)) && i < |After(st, acts).readers| && After(st, acts).readers[i].Found?
    decreases st.readers[i].level, if Standing(st, i) then |Rest(st.mem.keys, st.levels[st.readers[i].level], st.readers[i].x)| else 0
  {
    var a, r := StepSearch(i), st.readers[i];
    ReaderFacts(st, i);
    hide ListOk, WriterOk, ReaderInv, ReaderOk, SearchStep;
    StepKeeps(st, a);
    SearchStepCloser(st.mem, st.levels, r);
    var st' := Next(st, a);
    var more: seq<Action> := [];
    if st'.readers[i].Searching? {
      ReaderFacts(st', i);
      more := SearchEnds(st', i);
    }
    OneStepMore(st, a, more);
    acts := [a] + more;
  }

  lemma OneStepMore(st: State, a: Action, acts: seq<Action>)
    requires ListOk(st.mem, st.levels) && Enabled(st, a) && ValidRun(Next(st, a), acts)
    ensures ValidRun(st, [a] + acts) && After(st, [a] + acts) == After(Next(st, a), acts)
  {
    assert ([a] + acts)[1..] == acts;
  }

  ghost predicate Standing(st: State, i: nat) {
    && i < |st.readers| && st.readers[i].Searching? && st.readers[i].level < |st.levels|
    && Nodes(st.mem.keys, st.levels[st.readers[i].level]) && st.readers[i].x < |st.mem.keys|
  }

  lemma ReaderFacts(st: State, i: nat)
    requires Inv(st) && i < |st.readers| && st.readers[i].Searching?
    ensures Standing(st, i) && ListOk(st.mem, st.levels) && ReaderOk(st.mem, st.levels, st.readers[i]) && Enabled(st, StepSearch(i))
  {
    assert ReaderInv(st.mem, st.levels, st.readers[i], st.started[i]);
    assert LevelOk(st.mem, st.levels[st.readers[i].level], st.readers[i].level);
  }

  /** Node x has joined the levels from one up to another, and no level has changed otherwise. */
  ghost predicate Joins(before: Levels, after: Levels, x: nat, from: nat, to: nat) {
    |after| == |before| && forall l :: 0 <= l < |after| ==> after[l] == if from <= l < to then before[l] + {x} else before[l]
  }

  lemma JoinNext(ls: Levels, after: Levels, x: nat, from: nat, to: nat)
    requires from < |ls| && from < to && Joins(ls[from := ls[from] + {x}], after, x, from + 1, to)
    ensures Joins(ls, after, x, from, to)
  {
  }

  lemma JoinLast(ls: Levels, x: nat, from: nat)
    requires from < |ls|
    ensures Joins(ls, ls[from := ls[from] + {x}], x, from, from + 1)
  {
  }

  /** However far an insertion has got, the writer's own next steps link the node on all its levels. */
  lemma {:induction false} InsertEnds(st: State) returns (acts: seq<Action>)
    requires Inv(st) && st.writer.Linking?
    ensures ValidRun(st, acts) && (forall a :: a in acts ==> a.PrepareLink? || a.PublishLink?)
    ensures var st' := After(st, acts);
            && Inv(st') && st'.writer.Idle? && st'.mem.keys == st.mem.keys
            && Joins(st.levels, st'.levels, st.writer.x, st.writer.level, |st.writer.prev|)
    decreases |st.writer.prev| - st.writer.level, !st.writer.ready
  {
    var a := if st.writer.ready then PublishLink else PrepareLink;
    WriterMoves(st, a);
    hide ListOk, WriterOk, Enabled, Next, Inv, Joins;
    var st' := Next(st, a);
    var w := st.writer;
    var more: seq<Action> := [];
    if st'.writer.Linking? {
      more := InsertEnds(st');
      if w.ready {
        JoinNext(st.levels, After(st', more).levels, w.x, w.level, |w.prev|);
      }
    } else {
      JoinLast(st.levels, w.x, w.level);
    }
    OneStepMore(st, a, more);
    acts := [a] + more;
    hide ValidRun;
  }

  lemma WriterMoves(st: State, a: Action)
    requires Inv(st) && st.writer.Linking? && a == if st.writer.ready then PublishLink else PrepareLink
    ensures ListOk(st.mem, st.levels) && Enabled(st, a) && Inv(Next(st, a))
    ensures var w, st' := st.writer, Next(st, a);
            && w.level < |w.prev| <= |st.levels| && st'.mem.keys == st.mem.keys
            && if w.ready then st'.writer == Published(w) && st'.levels == st.levels[w.level := st.levels[w.level] + {w.x}]
               else st'.writer == w.(ready := true) && st'.levels == st.levels
  {
    WriterAtLevel(st.mem, st.levels, st.writer);
    StepKeeps(st, a);
    hide LevelOk, ReaderInv, IsPrev, IsSuccessor;
  }

  class SkipList {
    var mem: Mem
    ghost var levels: Levels

    ghost predicate Ok()
      reads this
    {
      ListOk(mem, levels) && LevelOk(mem, levels[0], 0)
    }

    ghost function Keys(): set<Key>
      requires Ok()
      reads this
    {
      set n | n in levels[0] :: mem.keys[n]
    }

    constructor ()
      ensures Ok() && Keys() == {}
    {
      mem, levels := EMPTY_LIST, NO_LEVELS;
      new;
      assert NO_LEVELS[0] == {};
    }

    /** The loop of the three searches below, which differ only in when to move on; `prev`, when given, records where each level was left. */
    method Search(goal: Goal, prev: array?<nat>) returns (x: nat, next: Link)
      requires Ok() && (prev != null ==> prev.Length == MAX_HEIGHT)
      modifies if prev == null then {} else {prev}
      ensures Ok() && (x == 0 || (x in levels[0] && Passes(goal, mem.keys[x])))
      ensures x < |mem.keys| && IsSuccessor(mem.keys, levels[0], x, next)
      ensures next.To? ==> !Passes(goal, mem.keys[next.node])
      ensures prev != null && goal.AtLeast? ==> forall l :: 0 <= l < mem.maxHeight ==>
                LevelOk(mem, levels[l], l) && IsPrev(mem.keys, levels[l], prev[l], goal.key)
    {
      hide LevelOk, ListOk, IsSuccessor, IsPrev;
      x := 0;
      AtLevel(0, 0);
      var level := mem.maxHeight - 1;
      AtLevel(level, 0);
      while true
        invariant Ok() && Shape(mem) && |levels| == MAX_HEIGHT && 0 <= level < mem.maxHeight && LevelOk(mem, levels[level], level)
        invariant Nodes(mem.keys, levels[level])
        invariant x == 0 || (x in levels[level] && Passes(goal, mem.keys[x]))
        invariant prev != null && goal.AtLeast? ==> forall l :: level < l < mem.maxHeight ==>
                    LevelOk(mem, levels[l], l) && Nodes(mem.keys, levels[l]) && IsPrev(mem.keys, levels[l], prev[l], goal.key)
        decreases level, |Rest(mem.keys, levels[level], x)|
      {
        AtLevel(level, x);
        next := mem.next[x][level];
        SuccessorCases(mem.keys, levels[level], x, next);
        if next.To? && Passes(goal, mem.keys[next.node]) {
          RestShrinks(mem.keys, levels[level], x, next.node);
          x := next.node;
        } else {
          if prev != null {
            prev[level] := x;
            if goal.AtLeast? {
              LeftBehind(mem.keys, levels[level], x, next, goal.key);
            }
          }
          if level == 0 {
            return;
          }
          AtLevel(level - 1, 0);
          level := level - 1;
        }
      }
    }

    /** What the list promises at one level and one node of it. */
    lemma AtLevel(l: nat, x: nat)
      requires Ok() && l < MAX_HEIGHT
      ensures Shape(mem) && |levels| == MAX_HEIGHT && LevelOk(mem, levels[l], l) && Nodes(mem.keys, levels[l])
      ensures x == 0 || x in levels[l] ==> l < |mem.next[x]| && IsSuccessor(mem.keys, levels[l], x, mem.next[x][l])
      ensures l + 1 < MAX_HEIGHT ==> levels[l + 1] <= levels[l]
    {
    }

    lemma SuccessorCases(keys: seq<Key>, s: set<nat>, x: nat, next: Link)
      requires Nodes(keys, s) && x < |keys| && IsSuccessor(keys, s, x, next)
      ensures next.To? ==> next.node in s
    {
    }

    /** The node where a search leaves a level is the last one before the target. */
    lemma LeftBehind(keys: seq<Key>, s: set<nat>, x: nat, next: Link, key: Key)
      requires Nodes(keys, s) && x < |keys| && IsSuccessor(keys, s, x, next)
      requires x == 0 || (x in s && keys[x] < key)
      requires next.To? ==> next.node in s && !(keys[next.node] < key)
      ensures IsPrev(keys, s, x, key)
    {
    }

    /** The first node at or after the key; Null if there is none. */
    method FindGreaterOrEqual(key: Key, prev: array?<nat>) returns (next: Link)
      requires Ok() && (prev != null ==> prev.Length == MAX_HEIGHT)
      modifies if prev == null then {} else {prev}
      ensures Ok() && IsAnswer(mem.keys, levels[0], AtLeast(key), next)
      ensures prev != null ==> forall l :: 0 <= l < mem.maxHeight ==>
                LevelOk(mem, levels[l], l) && IsPrev(mem.keys, levels[l], prev[l], key)
      ensures next.Null? ==> forall k :: k in Keys() ==> k < key
      ensures next.To? ==> next.node < |mem.keys| && mem.keys[next.node] in Keys() && mem.keys[next.node] >= key
                           && forall k :: k in Keys() && k >= key ==> k >= mem.keys[next.node]
    {
      var x: nat;
      x, next := Search(AtLeast(key), prev);
    }

    /** The last node before the key; the head if there is none. */
    method FindLessThan(key: Key) returns (x: nat)
      requires Ok()
      ensures Ok() && IsAnswer(mem.keys, levels[0], Below(key), if x == 0 then Null else To(x))
      ensures x == 0 ==> forall k :: k in Keys() ==> k >= key
      ensures x != 0 ==> x < |mem.keys| && mem.keys[x] in Keys() && mem.keys[x] < key
                         && forall k :: k in Keys() && k < key ==> k <= mem.keys[x]
    {
      var next: Link;
      x, next := Search(Below(key), null);
    }

    /** The last node; the head if the list is empty. */
    method FindLast() returns (x: nat)
      requires Ok()
      ensures Ok() && IsAnswer(mem.keys, levels[0], Last, if x == 0 then Null else To(x))
      ensures x == 0 ==> Keys() == {}
      ensures x != 0 ==> x < |mem.keys| && mem.keys[x] in Keys() && forall k :: k in Keys() ==> k <= mem.keys[x]
    {
      var next: Link;
      x, next := Search(Last, null);
    }

    method Contains(key: Key) returns (found: bool)
      requires Ok()
      ensures found <==> key in Keys()
    {
      var x := FindGreaterOrEqual(key, null);
      found := x.To? && mem.keys[x.node] == key;
    }

    /** Insert adds exactly the key; the height drawn only decides how many levels it joins. */
    method Insert(key: Key, height: nat)
      requires Ok() && key !in Keys() && 1 <= height <= MAX_HEIGHT
      modifies this
      ensures Ok() && Keys() == old(Keys()) + {key} && mem.keys == old(mem.keys) + [key]
      ensures Joins(old(levels), levels, |old(mem.keys)|, 0, height)
    {
      var prev := new nat[MAX_HEIGHT];
      var found := FindGreaterOrEqual(key, prev);
      if height > mem.maxHeight {
        var i := mem.maxHeight;
        while i < height
          modifies prev
          invariant mem.maxHeight <= i <= height
          invariant forall l :: 0 <= l < mem.maxHeight ==> LevelOk(mem, levels[l], l) && IsPrev(mem.keys, levels[l], prev[l], key)
          invariant forall l :: mem.maxHeight <= l < i ==> prev[l] == 0
        {
          prev[i] := 0;
          i := i + 1;
        }
      }
      PrevOnAllLevels(key, height, prev[..height]);
      LinkNode(key, height, prev[..height]);
    }

    /** Links a new node level by level, from the bottom: two stores each. */
    method LinkNode(key: Key, height: nat, prev: seq<nat>)
      requires Ok() && CanInsert(mem, levels, key, height, prev)
      modifies this
      ensures Ok() && Keys() == old(Keys()) + {key} && mem.keys == old(mem.keys) + [key]
      ensures Joins(old(levels), levels, |old(mem.keys)|, 0, height)
    {
      hide LevelOk, IsPrev, IsSuccessor, CanInsert, WriterOk;
      Heights(key, height, prev);
      AllocateKeeps(mem, levels, key, height, prev);
      ghost var n, keys, linked, before := |mem.keys|, mem.keys, levels[0], levels;
      ghost var w := Linking(n, prev, 0, false);
      mem := Allocate(mem, key, height);
      var x := |mem.keys| - 1;
      var i := 0;
      while i < height
        invariant 0 <= i <= height && x == n && mem.keys == keys + [key]
        invariant ListOk(mem, levels) && WriterOk(mem, levels, w)
        invariant w == if i < height then Linking(n, prev, i, false) else Idle
        invariant levels[0] == if i == 0 then linked else linked + {n}
        invariant Joins(before, levels, n, 0, i)
      {
        WriterAtLevel(mem, levels, w);
        PrepareKeeps(mem, levels, w);
        mem := SetNext(mem, x, i, mem.next[prev[i]][i]);
        w := w.(ready := true);
        PublishKeepsList(mem, levels, w);
        PublishKeepsWriter(mem, levels, w);
        mem := SetNext(mem, prev[i], i, To(x));
        levels := levels[i := levels[i] + {x}];
        w := Published(w);
        i := i + 1;
      }
      KeysGrow(keys, key, linked);
    }

    lemma Heights(key: Key, height: nat, prev: seq<nat>)
      requires Ok() && CanInsert(mem, levels, key, height, prev)
      ensures 1 <= height <= MAX_HEIGHT && |prev| == height
      ensures forall n :: n in levels[0] ==> n < |mem.keys|
    {
    }

    lemma KeysGrow(keys: seq<Key>, key: Key, linked: set<nat>)
      requires ListOk(mem, levels) && mem.keys == keys + [key] && levels[0] == linked + {|keys|}
      requires forall n :: n in linked ==> n < |keys|
      ensures Ok() && Keys() == (set n | n in linked :: keys[n]) + {key}
    {
      assert LevelOk(mem, levels[0], 0);
      forall k ensures k in Keys() <==> k in (set n | n in linked :: keys[n]) + {key} {
        if k == key {
          assert mem.keys[|keys|] == key;
        } else {
          assert forall n :: n in levels[0] && mem.keys[n] == k ==> n in linked && keys[n] == k;
          assert forall n :: n in linked && keys[n] == k ==> n in levels[0] && mem.keys[n] == k;
        }
      }
    }

    lemma PrevOnAllLevels(key: Key, height: nat, prev: seq<nat>)
      requires Ok() && key !in Keys() && 1 <= height <= MAX_HEIGHT && |prev| == height
      requires forall l :: 0 <= l < mem.maxHeight && l < height ==> LevelOk(mem, levels[l], l) && IsPrev(mem.keys, levels[l], prev[l], key)
      requires forall l :: mem.maxHeight <= l < height ==> prev[l] == 0
      ensures CanInsert(mem, levels, key, height, prev)
    {
      forall l | 0 <= l < height ensures LevelOk(mem, levels[l], l) && IsPrev(mem.keys, levels[l], prev[l], key) {
        assert LevelOk(mem, levels[l], l);
      }
    }
  }
}
