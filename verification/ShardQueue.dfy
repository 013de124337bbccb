/** A shard's job queue: the linked list behind `enqueue_to_shard` and the worker's dequeue. */
module ShardQueue {
  import opened LinkedFifo
  import opened WorkerPool

  /** `enqueue_to_shard`: 0 and the job is queued, or -1 and the caller keeps it.
      The queue changes as the pool model's shard does. */
  method EnqueueToShard(q: Fifo<Job>, job: Job, ghost l: Lane) returns (rc: int)
    requires q.Valid() && l.queue == q.Contents()
    modifies q, q.repr
    ensures q.Valid() && q.Contents() == Enqueue(l, job).queue
    ensures rc == (if old(|q.Contents()|) < 4096 then 0 else -1)
    ensures rc == 0 ==> q.Contents() == old(q.Contents()) + [job]
    ensures rc == -1 ==> q.Contents() == old(q.Contents()) && Enqueue(l, job) == l
  {
    if q.size >= MAX_QUEUE { return -1; }
    q.Append(job);
    rc := 0;
  }

  /** The worker's dequeue, as the pool model's idle worker takes its next job. */
  method TakeJob(q: Fifo<Job>, ghost l: Lane, closing: bool) returns (job: Job)
    requires q.Valid() && l.queue == q.Contents() != [] && l.phase.Idle?
    modifies q
    ensures q.Valid() && Fetch(l, closing) == l.(queue := q.Contents(), phase := Taken(job))
    ensures old(q.Contents()) == [job] + q.Contents()
  {
    job := q.RemoveHead();
  }
}
