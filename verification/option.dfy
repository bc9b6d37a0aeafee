/**
 An optional result. The word search of the layout and the regular
 expression searches of the extraction return `None` where the source
 returns `-1` or a failed match, and `Some(x)` where it finds `x`.
 */
module Optional {

  datatype Option<+T> = None | Some(value: T)
}
