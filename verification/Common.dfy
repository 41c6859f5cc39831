/** What several parts of the scanner share (bzccscanner.c). */
module Common {

  datatype Option<T> = None | Some(value: T)

  const PLAYER_NAME_LEN := 64
  const USER_ID_LEN := 32
}
