/** An optional value: `None` stands for JavaScript's `undefined` where the
    charting code can produce it (the mean or a quantile of an empty sample,
    a record field not yet assigned). */
module Wrappers {

  datatype Option<+T> = None | Some(value: T)
}
