/** Value types that every part of the library shares. */
module Common {

  /** One octet, `std::uint8_t`. */
  type Byte = x: int | 0 <= x < 256

  /** The payload of a `duct::Message`; its size is the length of the sequence. */
  type Message = seq<Byte>

  /** The error codes of `duct::Status` that the modelled code returns. */
  datatype Error = InvalidArgument | IoError | Timeout | Closed | ProtocolError

  /** `duct::Result<T>`. */
  datatype Result<+T> = Ok(value: T) | Err(error: Error)

  /** `duct::BackpressurePolicy`. */
  datatype Policy = Block | DropNew | DropOld | FailFast

  datatype Option<+T> = None | Some(value: T)

  lemma Regroup<T>(a: seq<T>, b: seq<T>, c: seq<T>)
    ensures a + (b + c) == (a + b) + c
  {
  }

  lemma TakenApart<T>(a: seq<T>, b: seq<T>)
    ensures (a + b)[..|a|] == a && (a + b)[|a|..] == b
  {
  }

  lemma SplitAt<T>(s: seq<T>, n: nat)
    requires n <= |s|
    ensures s == s[..n] + s[n..]
  {
  }

  /** Taking `n` and then `k` more is taking `n + k`. */
  lemma TakeThenTake<T>(s: seq<T>, n: nat, k: nat)
    requires n + k <= |s|
    ensures s[..n] + s[n..][..k] == s[..n + k]
  {
  }

  lemma DropHead<T>(s: seq<T>, i: nat)
    requires i < |s|
    ensures s[i..][0] == s[i] && s[i..][1..] == s[i + 1..]
  {
  }

  /** Storing at `w` extends the part before it and leaves alone what starts at `r`. */
  lemma StoreBelow<T>(s: seq<T>, w: nat, x: T, r: nat)
    requires w < r <= |s|
    ensures s[w := x][..w + 1] == s[..w] + [x] && s[w := x][r..] == s[r..]
  {
  }

  lemma TailOfSum<T>(a: seq<T>, b: seq<T>)
    requires a != []
    ensures (a + b)[0] == a[0] && (a + b)[1..] == a[1..] + b
  {
  }

  lemma TailOfCons<T>(x: T, s: seq<T>)
    ensures ([x] + s)[0] == x && ([x] + s)[1..] == s
  {
  }

  /** `s` is `t` with some elements left out: `at` gives the positions that are kept, and they increase. */
  ghost predicate Selects<T>(at: seq<nat>, s: seq<T>, t: seq<T>) {
    && |at| == |s|
    && (forall i | 0 <= i < |at| :: at[i] < |t| && t[at[i]] == s[i])
    && (forall i, j | 0 <= i < j < |at| :: at[i] < at[j])
  }

  /** One more element selected, beyond all the others. */
  lemma SelectsOneMore<T>(at: seq<nat>, s: seq<T>, t: seq<T>, n: nat)
    requires Selects(at, s, t) && n < |t| && forall i | 0 <= i < |at| :: at[i] < n
    ensures Selects(at + [n], s + [t[n]], t)
  {
  }
}
