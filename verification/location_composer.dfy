/** The composer a builder link holds: either the keyed-state composer or a
    composer whose body lies outside this model (the path composer), given as
    its `compose` function. */
module LocationComposer {
  import opened Values
  import StateLocationComposer

  datatype Composer =
    | StateComposer(key: string, validator: Value -> bool)
    | ExternalComposer(compose: (Location, Value) -> Location)

  /** `composer.compose(base, value)`, dispatched on the kind of composer. */
  function Compose(c: Composer, base: Location, v: Value): Location
  {
    match c
    case StateComposer(key, _) => StateLocationComposer.Compose(key, base, v)
    case ExternalComposer(f) => f(base, v)
  }
}
