/** Single- and double-precision values of the C and Python code, idealised as
    exact reals. A division by zero, which on IEEE-754 hardware yields an
    infinity or NaN that every later operation of the formulas here keeps
    non-finite, is `NonFinite`. */
module FloatModel {

  datatype Float = Finite(val: real) | NonFinite

  datatype Option<T> = None | Some(value: T)
}
