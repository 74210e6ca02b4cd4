/** What an address resolves to, for frames, rows and coverage alike. */
module Resolved {
  import opened Prelude

  /** addr is a symbol's value as the table has it, not yet masked. */
  datatype ResolvedFunction = ResolvedFunction(name: string, addr: nat, size: nat)

  datatype ResolvedSource = ResolvedSource(file: string, line: int)

  /** A function and a source position for an address, or neither. */
  datatype Resolver = Resolver(
    function_: nat -> Option<ResolvedFunction>,
    source: nat -> Option<ResolvedSource>
  )
  {
    /** The masked entry of the function an address lies in. */
    function Entry(address: nat): Option<nat> {
      match function_(address)
      case Some(f) => Some(Masked(f.addr))
      case None => None
    }
  }
}
