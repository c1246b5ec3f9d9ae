/** The nullable fields of the ROI context (`renderRect`, `selection`, `dragStart`,
    `dragCurrent`) are modelled with this conventional Some/None datatype. */
module Wrappers {

  datatype Option<+T> = None | Some(value: T) {

    /** The wrapped value, or `default` when there is none. */
    function GetOr(default: T): T {
      match this
      case Some(v) => v
      case None => default
    }
  }
}
