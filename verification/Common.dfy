/** The one datatype every other module needs: a value that may be absent (a C NULL). */
module Common {

  datatype Option<+T> = None | Some(value: T) {
    function GetOr(default: T): T {
      if Some? then value else default
    }
  }
}
