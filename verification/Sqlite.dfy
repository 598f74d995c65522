/** The one limit of the database that the bridge can run into. */
module Sqlite {
  const I64_MAX: nat := 0x7FFF_FFFF_FFFF_FFFF

  /** SQLite integers are signed: a statement with a larger unsigned parameter is refused before it runs. */
  predicate Storable(at: nat) {
    at <= I64_MAX
  }

  /** Why a statement fails; a refused one has changed nothing. */
  datatype Refusal = Refused
}
