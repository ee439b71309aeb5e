/** Small facts about sequences, stated for any element type so that the
    proofs about strings can cite them instead of re-deriving them next to
    the definitions of `trim`, `split` and the line format. */
module Seqs {

  lemma AppendNothing<T>(s: seq<T>)
    ensures s + [] == s
  {
  }

  lemma PrependNothing<T>(s: seq<T>)
    ensures [] + s == s
  {
  }

  lemma Assoc<T>(a: seq<T>, b: seq<T>, c: seq<T>)
    ensures a + (b + c) == a + b + c
  {
  }

  /** A non-empty sequence is its head and its tail. */
  lemma HeadAndTail<T>(s: seq<T>)
    requires |s| > 0
    ensures s == [s[0]] + s[1..]
  {
  }

  /** A non-empty sequence is its front and its last element. */
  lemma FrontAndLast<T>(s: seq<T>)
    requires |s| > 0
    ensures s == s[..|s| - 1] + [s[|s| - 1]]
  {
  }

  /** A sequence is its prefix of length `k` and the rest. */
  lemma TakeAndDrop<T>(s: seq<T>, k: nat)
    requires k <= |s|
    ensures s == s[..k] + s[k..]
  {
  }

  lemma TailOfConcat<T>(x: seq<T>, y: seq<T>)
    requires |x| >= 1
    ensures (x + y)[1..] == x[1..] + y
  {
  }

  lemma HeadOfConcat<T>(x: seq<T>, y: seq<T>)
    requires |x| >= 1
    ensures (x + y)[0] == x[0]
  {
  }

  /** A prefix of length `n` is the head and a prefix of the tail. */
  lemma TakeOfTail<T>(s: seq<T>, n: nat)
    requires 1 <= n <= |s|
    ensures s[..n] == [s[0]] + s[1..][..n - 1]
  {
  }

  /** A suffix that reaches the end is a suffix of the front and the last
      element. */
  lemma DropOfFront<T>(s: seq<T>, k: nat)
    requires k < |s|
    ensures s[k..] == s[..|s| - 1][k..] + [s[|s| - 1]]
  {
  }

  lemma TakeMembers<T>(s: seq<T>, n: nat)
    requires n <= |s|
    ensures forall c :: c in s[..n] ==> c in s
  {
    forall c | c in s[..n] ensures c in s {
      var i :| 0 <= i < n && s[..n][i] == c;
      assert s[i] == c;
    }
  }

  lemma DropMembers<T>(s: seq<T>, n: nat)
    requires n <= |s|
    ensures forall c :: c in s[n..] ==> c in s
  {
    forall c | c in s[n..] ensures c in s {
      var i :| 0 <= i < |s| - n && s[n..][i] == c;
      assert s[n + i] == c;
    }
  }

  /** The first five elements of `x + y` are those of `x`. */
  lemma FirstFiveOfConcat<T>(x: seq<T>, y: seq<T>)
    requires |x| >= 5
    ensures (x + y)[0] == x[0] && (x + y)[1] == x[1] && (x + y)[2] == x[2]
    ensures (x + y)[3] == x[3] && (x + y)[4] == x[4]
  {
  }
}
