/**
  The error values the reconciler surfaces, and the two shapes in which it
  surfaces them: a value-or-error `Result` and a pass-or-error `Outcome`
  (Go's bare `error` return).
 */
module Results {

  /** The two wrapped errors of the service: a failed namespace or ingress
      listing ("updating ingresses failed") and a failed threat lookup
      ("retrieving google safebrowsing thread matches failed"). */
  datatype Error = ClusterListFailed | LookupFailed

  datatype Result<+T> = Ok(value: T) | Err(error: Error)

  datatype Outcome = Pass | Fail(error: Error)
}
