/** The modal dialogs the program opens through `messagebox`, as values. */
module Messages {
  datatype Dialog =
    | ShowError(title: string, message: string)
    | ShowWarning(title: string, message: string)
    | ShowInfo(title: string, message: string)
}
