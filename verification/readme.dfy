/**
 The README revision stamp (`updateReadMe`). Both copies of BoringSSL carry a
 README whose last line is a URL naming the upstream revision,
 `https://fuchsia.googlesource.com/third_party/boringssl/+/<revision>/`,
 followed by one more byte (normally a newline). The stamp rewrites the
 revision in place: it computes where the URL must start from the length of
 the NEW revision, checks that the URL prefix is there, and overwrites the
 bytes after the prefix with the new revision and a `/`.
 */
module Readme {
  import opened Bytes
  import opened Results

  /**
   The fixed URL prefix, `https://fuchsia.googlesource.com/third_party/boringssl/+/`.
   It is written in pieces that start at its three `h`s so that proofs can see
   where those are.
   */
  const UrlBaseText: string :=
    "h" + "ttps://fuc" + "h" + "sia.googlesource.com/t" + "h" + "ird_party/boringssl/+/"

  const UrlBase: seq<byte> := FromAscii(UrlBaseText)

  /** Why a README does not take a stamp. */
  datatype StampError =
    | ShortRead       // fewer than |UrlBase| bytes could be read at the offset (`ReadAt` returns an error)
    | NotRevisionUrl  // the bytes at the offset are not the URL prefix

  /**
   Where the URL prefix must start in a file of `size` bytes for a new
   revision of `commitLen` bytes: the prefix, the revision, its `/` and one
   trailing byte end the file. A file too short for that is read from offset 0.
   */
  function StampOffset(size: nat, commitLen: nat): (off: nat)
    ensures size > |UrlBase| + commitLen + 1 ==> off + |UrlBase| + commitLen + 2 == size
    ensures size <= |UrlBase| + commitLen + 1 ==> off == 0
  {
    var revLen := commitLen + 1;
    if size > |UrlBase| + revLen then size - (|UrlBase| + revLen + 1) else 0
  }

  /** The URL prefix occupies `file[off..off + |UrlBase|]`. */
  predicate UrlAt(file: seq<byte>, off: nat) {
    off + |UrlBase| <= |file| && file[off..off + |UrlBase|] == UrlBase
  }

  /** The bytes written over the old revision: the new revision and its `/`. */
  function RevisionField(commit: seq<byte>): seq<byte> {
    commit + [Slash]
  }

  /**
   Stamps `commit` into a README. On success the bytes after the URL prefix
   become `commit` and `/`; every other byte is kept; the file grows only when
   the new field runs past its end.
   */
  function Stamp(file: seq<byte>, commit: seq<byte>): (r: Result<seq<byte>, StampError>)
    ensures r.Ok? <==> UrlAt(file, StampOffset(|file|, |commit|))
    ensures r == Err(ShortRead) <==> |file| < StampOffset(|file|, |commit|) + |UrlBase|
    ensures r.Ok? ==>
              var pos := StampOffset(|file|, |commit|) + |UrlBase|;
              && |r.value| == Max(|file|, pos + |commit| + 1)
              && (forall i | 0 <= i < |r.value| && !(pos <= i < pos + |commit| + 1) :: r.value[i] == file[i])
              && r.value[pos..pos + |commit| + 1] == RevisionField(commit)
  {
    var off := StampOffset(|file|, |commit|);
    if |file| < off + |UrlBase| then
      Err(ShortRead)
    else if file[off..off + |UrlBase|] != UrlBase then
      Err(NotRevisionUrl)
    else
      var r := WriteAt(file, off + |UrlBase|, RevisionField(commit));
      assert r[off + |UrlBase|..off + |UrlBase| + |commit| + 1] == RevisionField(commit);
      Ok(r)
  }

  /**
   When the file is long enough to hold prefix, revision, `/` and the trailing
   byte, a stamp keeps the length and the last byte, and replaces exactly the
   field just before the last byte.
   */
  lemma StampKeepsTail(file: seq<byte>, commit: seq<byte>)
    requires |file| > |UrlBase| + |commit| + 1
    requires Stamp(file, commit).Ok?
    ensures Stamp(file, commit).value
         == file[..|file| - |commit| - 2] + RevisionField(commit) + [file[|file| - 1]]
  {
    var pos := |file| - |commit| - 2;
    var field := RevisionField(commit);
    assert |field| == |commit| + 1;
    assert StampOffset(|file|, |commit|) + |UrlBase| == pos;
    StampWrites(file, commit, pos);
    WriteAtBeforeLast(file, pos, field);
  }

  /** A successful stamp is the write of the revision field just after the prefix. */
  lemma StampWrites(file: seq<byte>, commit: seq<byte>, pos: nat)
    requires Stamp(file, commit).Ok? && pos == StampOffset(|file|, |commit|) + |UrlBase|
    ensures pos <= |file|
    ensures Stamp(file, commit).value == WriteAt(file, pos, RevisionField(commit))
  {
    var off := StampOffset(|file|, |commit|);
    assert UrlAt(file, off);
    assert off + |UrlBase| <= |file| && file[off..off + |UrlBase|] == UrlBase;
  }

  /** A file no longer than prefix, revision and `/` that takes the stamp ends up as exactly those. */
  lemma StampShortFile(file: seq<byte>, commit: seq<byte>)
    requires |file| <= |UrlBase| + |commit| + 1
    requires Stamp(file, commit).Ok?
    ensures Stamp(file, commit).value == UrlBase + RevisionField(commit)
  {
    assert StampOffset(|file|, |commit|) == 0;
    assert Stamp(file, commit).value == WriteAt(file, |UrlBase|, RevisionField(commit));
    assert file[..|UrlBase|] == UrlBase;
  }

  /**
   The round trip: a README ending in the URL prefix, an old revision of the
   same length as the new one, `/` and one trailing byte gets the new revision
   and keeps everything else.
   */
  lemma StampRoundTrip(pre: seq<byte>, prev: seq<byte>, commit: seq<byte>, last: byte)
    requires |prev| == |commit|
    ensures Stamp(pre + UrlBase + RevisionField(prev) + [last], commit)
         == Ok(pre + UrlBase + RevisionField(commit) + [last])
  {
    var file := pre + UrlBase + RevisionField(prev) + [last];
    assert StampOffset(|file|, |commit|) == |pre|;
    assert file[|pre|..|pre| + |UrlBase|] == UrlBase;
    StampKeepsTail(file, commit);
    assert file[..|pre| + |UrlBase|] == pre + UrlBase;
    assert file[|file| - 1] == last;
  }

  /** Stamping the same revision twice is the same as stamping it once. */
  lemma StampIdempotent(file: seq<byte>, commit: seq<byte>)
    requires Stamp(file, commit).Ok?
    ensures Stamp(Stamp(file, commit).value, commit) == Stamp(file, commit)
  {
    var r := Stamp(file, commit).value;
    if |file| > |UrlBase| + |commit| + 1 {
      StampKeepsTail(file, commit);
      var off := StampOffset(|file|, |commit|);
      var pos := off + |UrlBase|;
      assert file[off..pos] == UrlBase;
      assert file[..pos] == file[..off] + UrlBase by {
        assert file[..pos] == file[..off] + file[off..pos];
      }
      StampRoundTrip(file[..off], commit, commit, file[|file| - 1]);
    } else {
      StampShortFile(file, commit);
      assert StampOffset(|r|, |commit|) == 0;
      assert r[..|UrlBase|] == UrlBase;
      StampShortFile(r, commit);
    }
  }

  /** After its first character, the prefix text never again reads `ht`. */
  lemma UrlBaseTextNoRestart(d: nat)
    requires 0 < d < |UrlBaseText| - 1
    ensures UrlBaseText[d] != 'h' || UrlBaseText[d + 1] != 't'
  {
    var a, b, c := "ttps://fuc", "sia.googlesource.com/t", "ird_party/boringssl/+/";
    if d < 11 {
      assert UrlBaseText[d] == a[d - 1];
      assert 'h' !in a;
    } else if d == 11 {
      assert UrlBaseText[d + 1] == 's';
    } else if d < 34 {
      assert UrlBaseText[d] == b[d - 12];
      assert 'h' !in b;
    } else if d == 34 {
      assert UrlBaseText[d + 1] == 'i';
    } else {
      assert UrlBaseText[d] == c[d - 35];
      assert 'h' !in c;
    }
  }

  /** The URL prefix does not overlap a shifted copy of itself. */
  lemma UrlBaseNoSelfOverlap(d: nat)
    requires 0 < d < |UrlBase| - 1
    ensures !(UrlBase[d] == UrlBase[0] && UrlBase[d + 1] == UrlBase[1])
  {
    UrlBaseTextNoRestart(d);
    assert UrlBase[0] as int == 'h' as int;
    assert UrlBase[1] as int == 't' as int;
  }

  /**
   The stamp does not tolerate a revision whose length differs from the old
   one (by less than the prefix length): the offset computed from the new
   length misses the URL prefix and the README is rejected.
   */
  lemma StampRejectsLengthChange(pre: seq<byte>, prev: seq<byte>, commit: seq<byte>, last: byte)
    requires |prev| != |commit|
    requires |prev| < |commit| + |UrlBase| - 1 && |commit| < |prev| + |UrlBase| - 1
    requires |commit| <= |prev| + |pre|
    ensures Stamp(pre + UrlBase + RevisionField(prev) + [last], commit).Err?
  {
    var file := pre + UrlBase + RevisionField(prev) + [last];
    var off := StampOffset(|file|, |commit|);
    assert off == |pre| + |prev| - |commit|;
    UrlAtJoin(pre, RevisionField(prev) + [last]);
    assert file == pre + UrlBase + (RevisionField(prev) + [last]);
    if |prev| > |commit| {
      UrlAtUnique(file, |pre|, off);
    } else {
      UrlAtUnique(file, off, |pre|);
    }
  }

  /** The URL prefix cannot start at two places less than its length apart. */
  lemma UrlAtUnique(file: seq<byte>, a: nat, b: nat)
    requires a < b < a + |UrlBase| - 1
    ensures !(UrlAt(file, a) && UrlAt(file, b))
  {
    if UrlAt(file, a) && UrlAt(file, b) {
      var d := b - a;
      UrlAtIndex(file, b, 0);
      UrlAtIndex(file, b, 1);
      UrlAtIndex(file, a, d);
      UrlAtIndex(file, a, d + 1);
      assert UrlBase[d] == UrlBase[0] && UrlBase[d + 1] == UrlBase[1];
      UrlBaseNoSelfOverlap(d);
    }
  }

  lemma UrlAtJoin(pre: seq<byte>, rest: seq<byte>)
    ensures UrlAt(pre + UrlBase + rest, |pre|)
  {
    assert (pre + UrlBase + rest)[|pre|..|pre| + |UrlBase|] == UrlBase;
  }

  lemma UrlAtIndex(file: seq<byte>, at: nat, k: nat)
    requires UrlAt(file, at) && k < |UrlBase|
    ensures file[at + k] == UrlBase[k]
  {
    assert file[at..at + |UrlBase|][k] == file[at + k];
  }
}
