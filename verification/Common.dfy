/** Vocabulary shared by every module. */
module Common {

  datatype Option<+T> = None | Some(value: T)

  /** Maps and sets are walked in no particular order. */
  method NextKey<T>(keys: set<T>) returns (key: T)
    requires keys != {}
    ensures key in keys
  {
    key :| key in keys;
  }
}
