/**
 The widths of C++ integers.
 */
module Integers {
  const INT_MAX := 0x7FFF_FFFF
}
