/** The SQLite tables that the queue, the lock and the deployment state share.

    Timestamps are whole milliseconds: the ISO-8601 UTC text the source stores
    (`Date.toISOString`) compares the way its millisecond value does. */
module Tables {
  import opened Wrappers

  /** A row of `locks`; the resource is the primary key. */
  datatype LockRow = LockRow(holder: string, token: int, expiresAt: int)

  type LockTable = map<string, LockRow>

  /** A row of `current_deployment`; the service is the primary key. */
  datatype CurrentRow = CurrentRow(tag: string, deployedAt: int, token: int)

  type CurrentTable = map<string, CurrentRow>

  datatype JobState = Pending | Running | Done | Failed | Dead

  /** What a job was enqueued for. `auto` marks the rollback a failed health gate enqueues. */
  datatype JobKind = Deploy | Rollback(auto: bool) | OtherKind(name: string)

  /** A row of `jobs`; the id is the primary key. */
  datatype JobRow = JobRow(
    kind: JobKind,
    resourceId: string,
    state: JobState,
    attempts: int,
    maxAttempts: int,
    nextAttemptAt: int,
    leaseUntil: Option<int>,
    leaseHolder: Option<string>,
    lastError: Option<string>,
    fencingToken: int)

  type JobTable = map<int, JobRow>

  datatype DeploymentStatus = Started | Applying | Succeeded | Broken

  /** The open database connection: every method of the queue, the lock and the
      state updates these tables in place. */
  class Database {
    var jobs: JobTable
    var locks: LockTable
    var current: CurrentTable
    var deployments: map<int, DeploymentStatus>
    var degraded: set<string>

    constructor ()
      ensures jobs == map[] && locks == map[] && current == map[]
      ensures deployments == map[] && degraded == {}
    {
      jobs, locks, current := map[], map[], map[];
      deployments, degraded := map[], {};
    }
  }
}
