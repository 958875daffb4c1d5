/** Error codes of the runtime. Only their being nonzero and distinct from success matters. */
module Errors {
  const AEE_SUCCESS: int := 0
  const AEE_EFAILED: int := 1
  const AEE_ENOMEMORY: int := 2
  const AEE_EBADPARM: int := 14
  const AEE_EUNSUPPORTED: int := 20
  const ENOMEM: int := 12
}
