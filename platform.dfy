/** `Platform.OS` as the screens use it: they only ask whether it is 'web'. */
module Platform {

  /** 'web', or any other value of `Platform.OS` ('ios', 'android', ...). */
  datatype OS = Web | Native
}
