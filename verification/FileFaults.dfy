/** How operations on files fail, and how a service endpoint answers. */
module FileFaults {
  import opened Wrappers

  /** An endpoint's answer: its code, or an exception nobody caught. */
  datatype Reply = Code(n: int) | Uncaught

  /** What the exception of a failed operation is: a PermissionError, or any other OSError. */
  datatype Fault = Permission | OtherOs

  /** Writing or copying a file: a failure leaves the file as it was, or with the beginning of the text. */
  datatype Write = Works | Fails(why: Fault, kept: Option<nat>)

  function Beginning(text: string, n: nat): string {
    if n < |text| then text[..n] else text
  }

  /** The file after the write, `before` being the file before it. */
  function Written(before: Option<string>, text: string, w: Write): Option<string> {
    match w
    case Works => Some(text)
    case Fails(_, None) => before
    case Fails(_, Some(n)) => Some(Beginning(text, n))
  }
}
