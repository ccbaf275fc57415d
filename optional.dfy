/**
  An argument a caller may leave out, as with the optional duration of
  `reset(newInitialSeconds?)` and `restart(newInitialSeconds?)`: `None`
  stands for `undefined`.
 */
module Optional {

  datatype Option<+T> = None | Some(value: T)
}
