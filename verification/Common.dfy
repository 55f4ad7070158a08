// Failure-carrying results shared by every component.
module Common {
  datatype Option<+T> = None | Some(value: T)

  datatype Result<+T, +E> = Ok(value: T) | Err(error: E)
}

// Facts about joining and cutting texts, so that longer proofs need not find them again.
module Joining {
  lemma Assoc(a: string, b: string, c: string)
    ensures (a + b) + c == a + (b + c)
  {
  }

  lemma Cut(a: string, b: string)
    ensures (a + b)[|a|..] == b && (a + b)[..|a|] == a
    ensures |a| > 0 ==> (a + b)[0] == a[0]
  {
  }

  lemma Uncons(c: char, t: string)
    ensures ([c] + t)[0] == c && ([c] + t)[1..] == t
  {
  }
}
