/**
 * Values the UI nodes share through the type-keyed store.  Each registered
 * type is one `Entry` object: `Store::get`/`get_mut` read its value and
 * `Store::overwrite` assigns it.  The generic store itself (registration,
 * the fatal cases) is module TypeStore; here every entry a node reads is
 * assumed registered, as it is once the tree is built.
 */
module Entries {
  /** A colour as `[f32; 4]`: r, g, b, a. */
  type Rgba4 = s: seq<real> | |s| == 4 witness [0.0, 0.0, 0.0, 0.0]

  /** One registered store value. */
  class Entry<T> {
    var value: T

    constructor (v: T)
      ensures value == v
    {
      value := v;
    }
  }
}
