/** The values that a dump holds. */
module Values {

  datatype Value = Null | Int(n: int) | Float(r: real) | Text(s: string)
}
