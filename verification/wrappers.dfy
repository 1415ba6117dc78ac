/** The optional value used wherever a probe may have no data: a missing JSON key,
    a fetch that failed, or a search that found nothing. */
module Wrappers {

  datatype Option<+T> = None | Some(value: T)
}
