/** Runtime values (src/value.rs).

    The four concrete variants of `LoxValue` plus a `Callable` case, which
    src/class.rs builds when it binds a method. Function values are opaque
    handles: the call protocol is not part of this revision of rlox, and two handles
    are equal only when they are the same handle. */
module Values {

  datatype LoxFunction = LoxFunction(handle: nat)

  datatype Value =
    | Number(n: real)
    | String(s: string)
    | Boolean(b: bool)
    | Null
    | Callable(fn: LoxFunction)
}
