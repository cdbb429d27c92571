/**
  The interface of the external licensing engine (licenx/licenx.h), which is not
  part of this model. Only the shapes that the examples consume are given here;
  the engine's own behaviour is represented by parameters of the operations that
  call it.
 */
module Licenx {

  /**
    One raw per-feature permission code. The element type of
    `ProductState.featureStates` is declared in licenx.h, which is not part of this
    model; every element is passed to `ToFeatureState`, which takes a
    `std::uint8_t`, so a wider element type would be narrowed to 0..255 at that
    call. The model keeps the already-narrowed value.
   */
  newtype Byte = x: int | 0 <= x < 0x100

  /** Result of `licenx::Initialize`: `Ok`, or one of the engine's failure codes. */
  datatype Status = Ok | InternalError | Failed(code: int)

  /** `licenx::Diagnostics`: the record the engine produces after initialisation. */
  datatype Diagnostics = Diagnostics(
    status: Status,
    message: string,
    licensePath: string,
    leaseDecision: string)

  /** `licenx::ProductState`: the entitlement snapshot, one code per feature index. */
  datatype ProductState = ProductState(featureStates: seq<Byte>)

  /**
    The outcome of one call into the engine that may throw: it either returns a
    value or raises some exception (which one does not matter to the callers).
   */
  datatype EngineCall<+T> = Returned(value: T) | Threw
}
