/** Byte strings and the content hash. A text is identified with its bytes, so one type serves both.
    The hash is any function that yields 64 lower-case hex digits; no two inputs that are really hashed
    may collide, and each theorem says which inputs those are. */
module Hashing {
  type Bytes = seq<char>

  type Hash = Bytes -> string

  predicate IsHex(c: char) {
    '0' <= c <= '9' || 'a' <= c <= 'f'
  }

  predicate IsDigest(s: string) {
    |s| == 64 && forall k :: 0 <= k < |s| ==> IsHex(s[k])
  }

  ghost predicate YieldsDigests(hash: Hash) {
    forall x :: IsDigest(hash(x))
  }

  /** No two different inputs of the set have the same hash. */
  ghost predicate NoCollision(hash: Hash, inputs: set<Bytes>) {
    forall x, y :: x in inputs && y in inputs && hash(x) == hash(y) ==> x == y
  }
}
