/** Result shapes shared by every reader of the monitor. */
module Results {

  /** A value that may be absent. */
  datatype Option<+T> = None | Some(value: T)

  /** How one call of the monitor's C++ code ends.
      - `Returns(v)`: it returns `v`;
      - `Spins`: it never returns (a "read until the key matches" loop whose
        stream has run dry);
      - `Throws`: `std::stoi`/`std::stol` throws `std::invalid_argument`, which
        nothing catches;
      - `Undefined`: the behaviour is not defined by the language or has no
        value in the reals (a vector read past its end, a float divided by zero). */
  datatype Outcome<+T> = Returns(value: T) | Spins | Throws | Undefined

  /** The same way of failing, for a call whose result has another type. */
  function Failed<T, U>(o: Outcome<T>): (r: Outcome<U>)
    requires !o.Returns?
    ensures !r.Returns?
  {
    match o
    case Spins => Spins
    case Throws => Throws
    case Undefined => Undefined
  }
}
