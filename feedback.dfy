/** The toasts both editing pages raise when a request settles. */
module Feedback {
  /** A toast: its title, its text, and whether it is shown as an error. */
  datatype Toast = Toast(title: string, description: string, destructive: bool)

  const SuccessTitle: string := "Success"
  const ErrorTitle: string := "Error"
}
