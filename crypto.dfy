/** The bcrypt primitives the services call, as function values supplied by
    the caller: their internals are not part of this model. */
module Crypto {
  import opened Wrappers

  /** `compare(plain, digest)` is `bcrypt.compare`; `hash(data, salt)` is
      `bcrypt.hash`, which may fail with an error message. */
  datatype Bcrypt = Bcrypt(
    compare: (string, string) -> bool,
    hash: (string, string) -> Result<string, string>)

  /** A digest that `hash` produced verifies against the data it was made
      from, and is never the empty string. */
  ghost predicate Verifies(b: Bcrypt)
  {
    forall data, salt :: b.hash(data, salt).Ok? ==>
      b.hash(data, salt).value != "" && b.compare(data, b.hash(data, salt).value)
  }

  /** Stronger: a digest verifies against exactly the data it was made from. */
  ghost predicate Exact(b: Bcrypt)
  {
    forall plain, data, salt :: b.hash(data, salt).Ok? ==>
      (b.compare(plain, b.hash(data, salt).value) <==> plain == data)
  }
}
