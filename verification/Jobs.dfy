/** Jobs (src/schedflow/core/job.py), without their workflow. */
module Jobs {
  import opened Prelude
  import opened Triggers
  import opened CombiningTriggers

  type JobId = string

  datatype Status = Running | Paused

  /** Times are microseconds, the grace time is in seconds. */
  datatype Job = Job(id: JobId, trigger: Option<Trigger>, graceSeconds: Option<int>, maxInstances: int, status: Status,
                     nextRunTime: Option<int>)

  /** The run time a trigger gives a job when it is added, resumed or rescheduled. `None` is an exception. */
  function FirstRunTime(trigger: Option<Trigger>, now: int): Option<Option<int>> {
    match trigger
    case None => Some(None)
    case Some(next) =>
      match next(None, now)
      case Fire(t) => Some(Some(t))
      case Never => Some(None)
      case Raises => None
  }

  /** `Job.__init__` */
  function NewJob(id: JobId, trigger: Option<Trigger>, graceSeconds: Option<int>, maxInstances: int, now: int): Option<Job> {
    match FirstRunTime(trigger, now)
    case None => None
    case Some(t) => Some(Job(id, trigger, graceSeconds, Max(1, maxInstances), Running, t))
  }
}
