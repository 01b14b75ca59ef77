/** The hashed bag-of-words embedding, before normalisation. */
module Embeddings {
  import opened Text

  /** What the embedding takes from a token's SHA-256 digest: the number in its first four bytes, and
      whether its fifth byte is even. */
  type Digest = string -> (nat, bool)

  function Contribution(token: string, i: nat, dim: nat, digest: Digest): int
    requires dim > 0
  {
    if digest(token).0 % dim != i then 0 else if digest(token).1 then 1 else -1
  }

  /** Coordinate i: the signed count of the tokens that fall into bucket i. */
  function Coordinate(tokens: seq<string>, i: nat, dim: nat, digest: Digest): int
    requires dim > 0
  {
    if tokens == [] then 0
    else Coordinate(tokens[..|tokens| - 1], i, dim, digest) + Contribution(tokens[|tokens| - 1], i, dim, digest)
  }

  method RawEmbedding(text: string, dim: nat, digest: Digest) returns (vector: array<int>)
    requires dim > 0
    ensures fresh(vector) && vector.Length == dim
    ensures forall i :: 0 <= i < dim ==> vector[i] == Coordinate(Words(text), i, dim, digest)
  {
    vector := new int[dim](_ => 0);
    var tokens := Words(text);
    for k := 0 to |tokens|
      invariant forall i :: 0 <= i < dim ==> vector[i] == Coordinate(tokens[..k], i, dim, digest)
    {
      var bucket := digest(tokens[k]).0 % dim;
      var sign := if digest(tokens[k]).1 then 1 else -1;
      vector[bucket] := vector[bucket] + sign;
      assert tokens[..k + 1][..k] == tokens[..k];
    }
    assert tokens[..|tokens|] == tokens;
  }

  // ---- Additivity and independence of order -----------------------------------------------------

  lemma {:induction false} CoordinateOfConcat(a: seq<string>, b: seq<string>, i: nat, dim: nat, digest: Digest)
    requires dim > 0
    ensures Coordinate(a + b, i, dim, digest) == Coordinate(a, i, dim, digest) + Coordinate(b, i, dim, digest)
  {
    if b == [] {
      assert a + b == a;
    } else {
      CoordinateOfConcat(a, b[..|b| - 1], i, dim, digest);
      assert (a + b)[..|a + b| - 1] == a + b[..|b| - 1];
    }
  }

  lemma RemoveOne(a: seq<string>, left: seq<string>, t: string, right: seq<string>)
    requires multiset(a + [t]) == multiset(left + [t] + right)
    ensures multiset(a) == multiset(left + right)
  {
    assert multiset(a + [t]) == multiset(a) + multiset{t};
    assert multiset(left + [t] + right) == multiset(left) + multiset{t} + multiset(right);
    assert multiset(left + right) == multiset(left) + multiset(right);
    forall x ensures multiset(a)[x] == multiset(left + right)[x] {
      assert multiset(a + [t])[x] == multiset(a)[x] + multiset{t}[x];
    }
  }

  /** Only the multiset of tokens matters. */
  lemma {:induction false} CoordinateOfPermutation(a: seq<string>, b: seq<string>, i: nat, dim: nat, digest: Digest)
    requires dim > 0 && multiset(a) == multiset(b)
    ensures Coordinate(a, i, dim, digest) == Coordinate(b, i, dim, digest)
  {
    if a == [] {
      assert |b| == |multiset(b)| == 0;
    } else {
      var t, a' := a[|a| - 1], a[..|a| - 1];
      assert a == a' + [t] && t in multiset(a);
      var k :| 0 <= k < |b| && b[k] == t;
      var left, right := b[..k], b[k + 1..];
      assert b == left + [t] + right;
      RemoveOne(a', left, t, right);
      CoordinateOfPermutation(a', left + right, i, dim, digest);
      CoordinateOfConcat(left, right, i, dim, digest);
      CoordinateOfConcat(left + [t], right, i, dim, digest);
      CoordinateOfConcat(left, [t], i, dim, digest);
      CoordinateOfConcat(a', [t], i, dim, digest);
    }
  }

  /** A character outside tokens splits the runs around it. */
  lemma {:induction false} RunsOfBreak(a: string, c: char, b: string, keep: char -> bool)
    requires !keep(c)
    ensures Runs(a + [c] + b, keep) == Runs(a, keep) + Runs(b, keep)
    decreases |a|
  {
    var s := a + [c] + b;
    if a == [] {
      assert s[1..] == b;
    } else if !keep(a[0]) {
      assert s[1..] == a[1..] + [c] + b;
      RunsOfBreak(a[1..], c, b, keep);
    } else {
      var n := RunLength(a, keep);
      assert n > 0;
      RunLengthIs(s, keep, n);
      assert s[..n] == a[..n] && s[n..] == a[n..] + [c] + b;
      RunsOfBreak(a[n..], c, b, keep);
      assert [a[..n]] + (Runs(a[n..], keep) + Runs(b, keep)) == ([a[..n]] + Runs(a[n..], keep)) + Runs(b, keep);
    }
  }

  /** Texts joined by a blank embed to the sum of their embeddings. */
  lemma EmbeddingIsAdditive(a: string, b: string, i: nat, dim: nat, digest: Digest)
    requires dim > 0
    ensures Coordinate(Words(a + " " + b), i, dim, digest)
         == Coordinate(Words(a), i, dim, digest) + Coordinate(Words(b), i, dim, digest)
  {
    assert Lower(a + " " + b) == Lower(a) + [' '] + Lower(b);
    RunsOfBreak(Lower(a), ' ', Lower(b), IsAlnum);
    CoordinateOfConcat(Words(a), Words(b), i, dim, digest);
  }

  // ---- Size -------------------------------------------------------------------------------------

  function Abs(x: int): nat { if x < 0 then -x else x }

  /** The sum of the first n coordinates' absolute values. */
  function Mass(tokens: seq<string>, n: nat, dim: nat, digest: Digest): nat
    requires dim > 0
  {
    if n == 0 then 0 else Mass(tokens, n - 1, dim, digest) + Abs(Coordinate(tokens, n - 1, dim, digest))
  }

  /** One more token changes one coordinate by one. */
  lemma {:induction false} MassStep(tokens: seq<string>, n: nat, dim: nat, digest: Digest)
    requires dim > 0 && tokens != []
    ensures var before, after := Mass(tokens[..|tokens| - 1], n, dim, digest), Mass(tokens, n, dim, digest);
      if digest(tokens[|tokens| - 1]).0 % dim < n then after == before + 1 || after == before - 1 else after == before
  {
    if n > 0 { MassStep(tokens, n - 1, dim, digest); }
  }

  lemma OneMoreToken(tokens: seq<string>, dim: nat, digest: Digest)
    requires dim > 0 && tokens != []
    ensures var before, after := Mass(tokens[..|tokens| - 1], dim, dim, digest), Mass(tokens, dim, dim, digest);
      after == before + 1 || after == before - 1
  {
    MassStep(tokens, dim, dim, digest);
  }

  /** The coordinates' absolute values sum to at most the number of tokens, with the same parity. */
  lemma {:induction false} MassIsBounded(tokens: seq<string>, dim: nat, digest: Digest)
    requires dim > 0
    ensures Mass(tokens, dim, dim, digest) <= |tokens|
    ensures Mass(tokens, dim, dim, digest) % 2 == |tokens| % 2
  {
    if tokens == [] {
      MassOfNothing(dim, dim, digest);
    } else {
      MassIsBounded(tokens[..|tokens| - 1], dim, digest);
      OneMoreToken(tokens, dim, digest);
    }
  }

  lemma {:induction false} MassOfNothing(n: nat, dim: nat, digest: Digest)
    requires dim > 0
    ensures Mass([], n, dim, digest) == 0
  {
    if n > 0 { MassOfNothing(n - 1, dim, digest); }
  }

  lemma {:induction false} MassOfZeros(tokens: seq<string>, n: nat, dim: nat, digest: Digest)
    requires dim > 0 && forall i :: 0 <= i < n ==> Coordinate(tokens, i, dim, digest) == 0
    ensures Mass(tokens, n, dim, digest) == 0
  {
    if n > 0 { MassOfZeros(tokens, n - 1, dim, digest); }
  }

  /** A text with an odd number of tokens never embeds to the zero vector, so it is always normalised. */
  lemma OddTextIsNotZero(text: string, dim: nat, digest: Digest)
    requires dim > 0 && |Words(text)| % 2 == 1
    ensures exists i :: 0 <= i < dim && Coordinate(Words(text), i, dim, digest) != 0
  {
    MassIsBounded(Words(text), dim, digest);
    if forall i :: 0 <= i < dim ==> Coordinate(Words(text), i, dim, digest) == 0 {
      MassOfZeros(Words(text), dim, dim, digest);
      assert false;
    }
  }
}
