/** The writer queue drives the engine: each of its steps is a step of the engine, or none at all. */
module EngineWriters {
  import opened InternalKeys
  import opened Versions
  import opened History
  import opened LogStream
  import Queue = GroupCommit
  import opened Engine

  /** The thread at the front of the queue is where the engine says its write is. */
  ghost predicate Related(s: Queue.State, m: Memory) {
    && s.lastSequence == m.lastSequence
    && match s.phase
       case Waiting => m.writing == NoWrite
       case Leading(_, ops, logged, inserted) => m.writing == if logged then Inserting(ops, inserted) else Logging(ops)
  }

  /** What a step of the queue is to the engine. */
  function EngineAction(s: Queue.State, a: Queue.Action): Option<Action>
    requires Queue.Enabled(s, a)
  {
    match a
    case Enqueue(_) => None
    case Switch => Some(SwitchMemTable)
    case Lead(n) => if s.queue[0].batch.None? then None else Some(BeginWrite(Queue.GroupOps(s.queue[..n])))
    case AppendRecord => Some(AppendLog)
    case InsertNext => Some(InsertNext)
    case Complete => Some(Publish)
  }

  /** What the engine asks for beyond the queue's own turn: room for a memtable, a log, sequence numbers. */
  ghost predicate EngineReady(s: Queue.State, d: Disk, m: Memory, a: Queue.Action)
    requires Queue.Enabled(s, a)
  {
    && (a.Switch? ==> m.imm.None?)
    && (a.Lead? ==> m.lastSequence + |Queue.GroupOps(s.queue[..a.n])| < MAX_SEQUENCE)
    && (a.AppendRecord? ==> m.logfile in d.logs)
  }

  /** A step of the queue is enabled in the engine, and the two stay together; the record logged, the
      entry inserted and the number published are the queue's own. */
  lemma QueueStepIsEngineStep(s: Queue.State, d: Disk, m: Memory, a: Queue.Action)
    requires |m.version| == NUM_LEVELS && (m.job.Some? ==> |m.job.value.base| == NUM_LEVELS)
    requires Queue.Inv(s) && Related(s, m) && Queue.Enabled(s, a) && EngineReady(s, d, m, a)
    ensures EngineAction(s, a).None? ==> Related(Queue.Next(s, a), m)
    ensures EngineAction(s, a).Some? ==>
              && EnabledUp(d, m, EngineAction(s, a).value)
              && var u := NextUp(d, m, EngineAction(s, a).value);
              && u.Up? && Related(Queue.Next(s, a), u.vol)
              && (a.AppendRecord? ==>
                    var r := Queue.Next(s, a).log[|s.log|];
                    u.disk.logs == d.logs[m.logfile := d.logs[m.logfile] + [Batch(r.base, r.ops)]])
              && (a.InsertNext? ==>
                    var q, op := s.lastSequence + 1 + s.phase.inserted, s.phase.ops[s.phase.inserted];
                    && Queue.Next(s, a).mem == s.mem + {(q, op)}
                    && u.vol.mem == Insert(m.mem, Entry(InternalKey(op.key, q, op.kind), op.value)))
              && (a.Complete? ==> u.vol.lastSequence == Queue.Next(s, a).lastSequence)
  {
    hide Queue.SyncsHonoured, Queue.Contiguous, Queue.MemHolds, Queue.LoggedOps, Queue.GroupOps;
  }
}
