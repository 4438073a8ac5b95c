/** Option and Result values used for JavaScript's null/undefined and for error returns. */
module Wrappers {

  datatype Option<+T> = None | Some(value: T)

  datatype Result<+T, +E> = Success(value: T) | Failure(error: E)

  /** An HTTP error response: a status code and the `message` field of its JSON body. */
  datatype HttpError = HttpError(status: nat, message: string)
}

/** Facts about sequence prefixes that the loops over rows, records and results share. */
module Seqs {
  /** The prefix one longer is the prefix with the next element appended. */
  lemma PrefixSnoc<T>(s: seq<T>, i: nat)
    requires i < |s|
    ensures s[..i + 1] == s[..i] + [s[i]]
  {
  }

  /** A sequence with one element appended has the old sequence as its prefix. */
  lemma SnocPrefix<T>(s: seq<T>, x: T)
    ensures (s + [x])[..|s|] == s
    ensures (s + [x])[|s|] == x
  {
  }

  /** Appending keeps every earlier element in place. */
  lemma SnocAt<T>(s: seq<T>, x: T, j: nat)
    requires j < |s|
    ensures (s + [x])[j] == s[j]
  {
  }

  /** A non-empty sequence is its prefix followed by its last element. */
  lemma ButLast<T>(s: seq<T>)
    requires s != []
    ensures s == s[..|s| - 1] + [s[|s| - 1]]
  {
  }
}
