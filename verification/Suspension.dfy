/**
 Why a direction of a bufferevent can be suspended.
 */
module Suspension {
  /** BEV_SUSPEND_* */
  datatype Reason = SuspendWm | SuspendBw | SuspendBwGroup | SuspendLookup | SuspendFiltRead
}
