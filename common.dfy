/** Small value types shared by every module of the model. */
module Common {

  datatype Option<T> = None | Some(value: T) {
    function GetOr(default: T): T {
      if Some? then value else default
    }
  }

  /** A calendar date as the form library hands it over after parsing. */
  datatype Date = Date(year: int, month: int, day: int)
}
