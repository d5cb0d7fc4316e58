/** Option and Result, the two failure shapes the machine uses. The machine's
    errors carry no payload (the source returns `Err(())`), so `Err` is bare. */
module Wrappers {

  datatype Option<+T> = None | Some(value: T)

  datatype Result<+T> = Ok(value: T) | Err
}
