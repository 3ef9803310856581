/**
 Byte strings as the roll script sees them: the contents of files, the output
 of `git rev-list`, and the in-place writes of `os.File.WriteAt`.
 */
module Bytes {

  newtype byte = b: int | 0 <= b < 0x100

  /** The ASCII `/` that terminates a revision in a README URL. */
  const Slash: byte := 0x2F

  /** The bytes of an ASCII string. */
  function FromAscii(s: string): (r: seq<byte>)
    requires forall ch | ch in s :: ch as int < 0x80
    ensures |r| == |s|
    ensures forall i | 0 <= i < |s| :: r[i] as int == s[i] as int
  {
    seq(|s|, i requires 0 <= i < |s| => assert s[i] in s; s[i] as int as byte)
  }

  /** The ASCII white space that Go's `strings.TrimSpace` removes. */
  predicate IsSpace(b: byte) {
    b == 0x09 || b == 0x0A || b == 0x0B || b == 0x0C || b == 0x0D || b == 0x20
  }

  predicate AllSpace(s: seq<byte>) {
    forall k | 0 <= k < |s| :: IsSpace(s[k])
  }

  /** Neither end of `s` is white space. */
  predicate Trimmed(s: seq<byte>) {
    s == [] || (!IsSpace(s[0]) && !IsSpace(s[|s| - 1]))
  }

  /** The length of the longest all-space prefix of `s`. */
  function LeadingSpaces(s: seq<byte>): (n: nat)
    ensures n <= |s|
    ensures AllSpace(s[..n])
    ensures n < |s| ==> !IsSpace(s[n])
  {
    if |s| > 0 && IsSpace(s[0]) then
      var n := 1 + LeadingSpaces(s[1..]);
      assert s[..n] == [s[0]] + s[1..][..n - 1];
      n
    else
      0
  }

  /** The length of the longest all-space suffix of `s`. */
  function TrailingSpaces(s: seq<byte>): (n: nat)
    ensures n <= |s|
    ensures AllSpace(s[|s| - n..])
    ensures n < |s| ==> !IsSpace(s[|s| - 1 - n])
  {
    if |s| > 0 && IsSpace(s[|s| - 1]) then
      var m := TrailingSpaces(s[..|s| - 1]);
      TrailingSpacesStep(s, m);
      1 + m
    else
      0
  }

  /** A space-only suffix of all but the last byte, followed by a space, is a space-only suffix one longer. */
  lemma TrailingSpacesStep(s: seq<byte>, m: nat)
    requires |s| > 0 && IsSpace(s[|s| - 1]) && m < |s|
    requires AllSpace(s[..|s| - 1][|s| - 1 - m..])
    requires m < |s| - 1 ==> !IsSpace(s[..|s| - 1][|s| - 2 - m])
    ensures AllSpace(s[|s| - 1 - m..])
    ensures m + 1 < |s| ==> !IsSpace(s[|s| - 2 - m])
  {
    var spaces := s[|s| - 1 - m..|s| - 1];
    assert s[..|s| - 1][|s| - 1 - m..] == spaces;
    assert AllSpace([s[|s| - 1]]);
    AllSpaceConcat(spaces, [s[|s| - 1]]);
    assert s[|s| - 1 - m..] == spaces + [s[|s| - 1]];
  }

  /** `r` is the part of `s` left after removing `lo` leading and the rest trailing white space. */
  ghost predicate TrimmedAt(s: seq<byte>, r: seq<byte>, lo: nat) {
    && lo + |r| <= |s|
    && r == s[lo..lo + |r|]
    && AllSpace(s[..lo])
    && AllSpace(s[lo + |r|..])
  }

  /** Go's `strings.TrimSpace` restricted to ASCII white space. */
  function TrimSpace(s: seq<byte>): (r: seq<byte>)
    ensures Trimmed(r)
    ensures exists lo :: TrimmedAt(s, r, lo)
  {
    var lo := LeadingSpaces(s);
    var rest := s[lo..];
    var hi := TrailingSpaces(rest);
    var r := rest[..|rest| - hi];
    TrimSpaceParts(s, lo, hi);
    r
  }

  /** Cutting the longest space-only prefix and then the longest space-only suffix leaves a trimmed middle. */
  lemma TrimSpaceParts(s: seq<byte>, lo: nat, hi: nat)
    requires lo <= |s| && AllSpace(s[..lo]) && (lo < |s| ==> !IsSpace(s[lo]))
    requires hi <= |s| - lo && AllSpace(s[lo..][|s| - lo - hi..])
    requires hi < |s| - lo ==> !IsSpace(s[lo..][|s| - lo - 1 - hi])
    ensures Trimmed(s[lo..][..|s| - lo - hi])
    ensures TrimmedAt(s, s[lo..][..|s| - lo - hi], lo)
  {
    var rest := s[lo..];
    var r := rest[..|rest| - hi];
    assert r == s[lo..lo + |r|];
    assert s[lo + |r|..] == rest[|rest| - hi..];
    assert r != [] ==> r[0] == s[lo] && r[|r| - 1] == rest[|rest| - 1 - hi];
  }

  /** Any all-space prefix followed by a non-space byte (or the end) is the one `LeadingSpaces` finds. */
  lemma LeadingSpacesExact(s: seq<byte>, n: nat)
    requires n <= |s| && AllSpace(s[..n]) && (n < |s| ==> !IsSpace(s[n]))
    ensures LeadingSpaces(s) == n
  {
    var m := LeadingSpaces(s);
    if m < n {
      SpaceInPrefix(s, n, m);
    } else if n < m {
      SpaceInPrefix(s, m, n);
    }
  }

  /** Any all-space suffix preceded by a non-space byte (or the start) is the one `TrailingSpaces` finds. */
  lemma TrailingSpacesExact(s: seq<byte>, n: nat)
    requires n <= |s| && AllSpace(s[|s| - n..]) && (n < |s| ==> !IsSpace(s[|s| - 1 - n]))
    ensures TrailingSpaces(s) == n
  {
  }

  lemma SpaceInPrefix(s: seq<byte>, n: nat, k: nat)
    requires k < n <= |s| && AllSpace(s[..n])
    ensures IsSpace(s[k])
  {
    assert s[..n][k] == s[k];
  }

  /** A byte string padded on both sides with white space trims to its trimmed core. */
  lemma TrimSpaceUnique(pre: seq<byte>, core: seq<byte>, post: seq<byte>)
    requires AllSpace(pre) && AllSpace(post) && Trimmed(core)
    ensures TrimSpace(pre + core + post) == core
  {
    var s := pre + core + post;
    if core == [] {
      assert s == pre + post;
      AllSpaceConcat(pre, post);
      assert s[..|s|] == s;
      LeadingSpacesExact(s, |s|);
      assert s[|s|..] == [];
      TrailingSpacesExact([], 0);
    } else {
      assert s[..|pre|] == pre;
      assert s[|pre|] == core[0];
      LeadingSpacesExact(s, |pre|);
      var rest := s[|pre|..];
      assert rest == core + post;
      assert rest[|rest| - |post|..] == post;
      assert rest[|rest| - 1 - |post|] == core[|core| - 1];
      TrailingSpacesExact(rest, |post|);
      assert rest[..|rest| - |post|] == core;
    }
  }

  lemma AllSpaceConcat(a: seq<byte>, b: seq<byte>)
    requires AllSpace(a) && AllSpace(b)
    ensures AllSpace(a + b)
  {
    forall k | 0 <= k < |a + b|
      ensures IsSpace((a + b)[k])
    {
      if k < |a| { assert (a + b)[k] == a[k]; } else { assert (a + b)[k] == b[k - |a|]; }
    }
  }

  /** Trimming is idempotent: the trimmed revision is not changed by trimming it again. */
  lemma TrimSpaceIdempotent(s: seq<byte>)
    ensures TrimSpace(TrimSpace(s)) == TrimSpace(s)
  {
    var r := TrimSpace(s);
    assert r == [] + r + [];
    TrimSpaceUnique([], r, []);
  }

  function Max(a: nat, b: nat): nat {
    if a < b then b else a
  }

  /**
   `os.File.WriteAt`: `chunk` overwrites the bytes from `pos` on, extending
   the file when it runs past the end.
   */
  function WriteAt(data: seq<byte>, pos: nat, chunk: seq<byte>): (r: seq<byte>)
    requires pos <= |data|
    ensures |r| == Max(|data|, pos + |chunk|)
    ensures forall i | 0 <= i < |r| ::
              r[i] == if pos <= i < pos + |chunk| then chunk[i - pos] else data[i]
  {
    if pos + |chunk| < |data| then data[..pos] + chunk + data[pos + |chunk|..]
    else data[..pos] + chunk
  }

  /** Writing a chunk that ends just before the last byte replaces exactly those bytes. */
  lemma WriteAtBeforeLast(data: seq<byte>, pos: nat, chunk: seq<byte>)
    requires pos + |chunk| + 1 == |data|
    ensures WriteAt(data, pos, chunk) == data[..pos] + chunk + [data[|data| - 1]]
  {
    assert data[|data| - 1..] == [data[|data| - 1]];
  }
}
