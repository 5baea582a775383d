/** The states of a process (kernel/proc.h). */
module ProcStatus {
  datatype Status = UNUSED | SLEEPING | RUNNABLE | RUNNING | ZOMBIE
}
