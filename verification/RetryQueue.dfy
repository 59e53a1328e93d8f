/** The retry engine and the dead letter queue of queue_engine/. */
module RetryQueue {
  import opened Wrappers
  import opened JobQueue
  import opened TaskRepository
  import S = Scheduler

  function TriesOf(tracker: map<string, nat>, id: string): nat {
    if id in tracker then tracker[id] else 0
  }

  class DeadLetterQueue {
    var dlq: seq<Job>
    const repo: TaskRepository

    constructor (repo: TaskRepository)
      ensures dlq == [] && this.repo == repo
    {
      dlq := [];
      this.repo := repo;
    }

    method AddToDlq(task: Job, error: Option<string>)
      modifies this, repo
      ensures dlq == old(dlq) + [task]
      ensures repo.View() == UpdateStatus(old(repo.View()), repo.capacity, task.id, Dead, None, None, error)
    {
      dlq := dlq + [task];
      repo.Update(task.id, Dead, None, None, error);
    }
  }

  class RetryQueue {
    const scheduler: S.Scheduler
    const repo: TaskRepository
    const maxRetries: int
    var retriesTracker: map<string, nat>

    constructor (scheduler: S.Scheduler, repo: TaskRepository, maxRetries: int)
      ensures this.scheduler == scheduler && this.repo == repo && this.maxRetries == maxRetries
      ensures retriesTracker == map[]
    {
      this.scheduler, this.repo, this.maxRetries := scheduler, repo, maxRetries;
      retriesTracker := map[];
    }

    /** One more failure: back to the queue up to `maxRetries` times, then to the dead letter queue. */
    method HandleTaskFailed(task: Job, error: Option<string>, dlq: DeadLetterQueue)
      requires dlq.repo == repo
      modifies this, repo, dlq, scheduler.jobQueue
      ensures var tries := TriesOf(old(retriesTracker), task.id) + 1;
        var repo' := IncrementRetry(old(repo.View()), repo.capacity, task.id);
        && retriesTracker == old(retriesTracker)[task.id := tries]
        && (tries <= maxRetries ==>
            && scheduler.jobQueue.View() == Add(old(scheduler.jobQueue.View()), task)
            && dlq.dlq == old(dlq.dlq)
            && repo.View() == UpdateStatus(repo', repo.capacity, task.id, Retrying, None, None, error))
        && (tries > maxRetries ==>
            && scheduler.jobQueue.View() == old(scheduler.jobQueue.View())
            && dlq.dlq == old(dlq.dlq) + [task]
            && repo.View() == UpdateStatus(repo', repo.capacity, task.id, Dead, None, None, error))
    {
      var tries := TriesOf(retriesTracker, task.id) + 1;
      retriesTracker := retriesTracker[task.id := tries];
      repo.Retry(task.id);
      if tries <= maxRetries {
        repo.Update(task.id, Retrying, None, None, error);
        scheduler.QueueJob(task);
      } else {
        dlq.AddToDlq(task, error);
      }
    }
  }
}
