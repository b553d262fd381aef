/** Named arguments, as carried by schedulers and connection items. */
module Args {

  /** The value held by an argument; `IntArg` stands for the integer types the core stores. */
  datatype ArgValue = BoolArg(b: bool) | IntArg(i: int) | RealArg(r: real) | StringArg(s: string)

  datatype Arg = Arg(name: string, value: ArgValue)
}
