/** The usual optional value, used where the player's JavaScript returns
    `undefined`, `-1` or skips an item. */
module Optional {
  datatype Option<+T> = None | Some(value: T)
}
