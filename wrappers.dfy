/** The optional value used wherever the server looks something up and may find nothing. */
module Wrappers {
  datatype Option<T> = None | Some(value: T)
}
