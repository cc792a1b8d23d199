/**
 What the operations on JSON values end in: the exceptions of the library are errors.
 */
module JsonResult {

  datatype Error =
    | NotAPointer        // 107: does not begin with a slash
    | BadEscape          // 108: tilde not followed by 0 or 1
    | LeadingZero        // 106
    | NotANumber         // 109
    | NumberOutOfRange   // std::out_of_range thrown by std::stoi
    | IndexOutOfRange    // 401
    | DashIndex          // 402
    | KeyNotFound        // 403
    | Unresolved         // 404
    | NoParent           // 405
    | NotPrimitive       // 315
    | NotUnflattenable   // 313
    | NotAnObject        // 314
    | BadPatch           // 104, 105
    | TestFailed         // 501
    | NoMemory           // an array index near 2^64

  datatype Result<T> = Ok(value: T) | Err(error: Error)
}
