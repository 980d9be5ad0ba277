/** Small vocabulary shared by the other modules. */
module Base {

  datatype Option<+T> = None | Some(value: T)

  /** How one command ended. `Refused` is a check the command itself makes before acting;
      `Failed` is an exception raised by a call to the outside. */
  datatype Status = Ok | Refused | Failed

}
