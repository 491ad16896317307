/** The C++ library routines on `double` that the model does not interpret.

    They are passed around as a record of total functions, so every property proved
    about the optimizer or the renderer holds whatever these routines compute. */
module Host {

  datatype Lib = Lib(
    /** `std::pow(x, y)` */
    pow: (real, real) -> real,
    /** `std::stod(s)`, or the number the optimizer stores when `std::stod` throws */
    stod: string -> real,
    /** `std::to_string(x)` (fixed six-decimal rendering) */
    toString: real -> string,
    /** the text `std::cout << x` writes with the default stream flags */
    stream: real -> string
  )
}
