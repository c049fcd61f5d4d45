/** The usual Some/None datatype, used where the ledger either produces a value
    or raises before it can. */
module Wrappers {

  datatype Option<+T> = None | Some(value: T)
}
