/** Optional values and the outcome of a call into the remote product/user
    service. The service itself (latency, random failures, fetch) is not
    modelled: every store action that awaits it takes its outcome as an
    argument instead. */
module Outcomes {

  /** `T | null` in the stores' state (price bounds, error message). */
  datatype Option<+T> = None | Some(value: T)

  /** A settled API promise: resolved with a value, or rejected with the
      message the store copies into its `error` field. */
  datatype ApiResult<+T> = Ok(value: T) | Failed(message: string)

}
