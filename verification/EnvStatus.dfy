/** env_status, shared by the environment table, the scheduler and the lock protocol. */
module EnvStatus {
  datatype Status = FREE | DYING | RUNNABLE | RUNNING | NOT_RUNNABLE
}
