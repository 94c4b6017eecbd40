/** The profile magic number: a fingerprint of the major.minor part of the
    package version, so that profiles saved by one release are recognised
    (or rejected) by another. SHA-256 and the version string come from
    outside the model and are the two fields of a MagicSource. */
module Magic {
  import opened Wrappers
  import opened CTypes

  /** `digest(b)` is `int(sha256(b).hexdigest(), 16)`; `version` is the
      package's `__version__`. */
  datatype MagicSource = MagicSource(version: string, digest: seq<uint8> -> nat)

  /** Python's `s.split(sep)`: every occurrence of `sep` separates two parts,
      empty parts included; re-joining gives `s` back. */
  function Split(s: string, sep: char): (r: seq<string>)
    ensures |r| >= 1
    ensures forall k, i :: 0 <= k < |r| && 0 <= i < |r[k]| ==> r[k][i] != sep
    ensures Join(r, sep) == s
    decreases |s|
  {
    if |s| == 0 then [""]
    else if s[0] == sep then [""] + Split(s[1..], sep)
    else
      var rest := Split(s[1..], sep);
      [[s[0]] + rest[0]] + rest[1..]
  }

  /** Python's `sep.join(parts)`: the parts with one separator between each
      two, and nothing before the first or after the last. */
  function Join(parts: seq<string>, sep: char): (r: string)
    ensures |parts| == 0 ==> r == ""
    ensures |parts| > 0 ==> parts[0] <= r
    ensures |parts| > 1 ==> |r| > |parts[0]| && r[|parts[0]|] == sep
  {
    if |parts| == 0 then ""
    else if |parts| == 1 then parts[0]
    else parts[0] + [sep] + Join(parts[1..], sep)
  }

  predicate NoDot(s: string)
  {
    forall i :: 0 <= i < |s| ==> s[i] != '.'
  }

  /** `'.'.join(version.split('.')[:2])`: a prefix of the version. */
  function MajorMinor(version: string): (r: string)
    ensures r <= version
  {
    var parts := Split(version, '.');
    JoinTake(parts, if |parts| < 2 then |parts| else 2, '.');
    Join(parts[..if |parts| < 2 then |parts| else 2], '.')
  }

  /** Joining the first k parts gives a prefix of joining them all. */
  lemma {:induction false} JoinTake(parts: seq<string>, k: nat, sep: char)
    requires k <= |parts|
    ensures Join(parts[..k], sep) <= Join(parts, sep)
  {
    if k == |parts| {
      assert parts[..k] == parts;
    } else if k > 1 {
      assert parts[..k][1..] == parts[1..][..k - 1];
      JoinTake(parts[1..], k - 1, sep);
    }
  }

  /** Splitting a join of separator-free parts gives the parts back. */
  lemma {:induction false} SplitJoin(parts: seq<string>, sep: char)
    requires |parts| > 0
    requires forall k, i :: 0 <= k < |parts| && 0 <= i < |parts[k]| ==> parts[k][i] != sep
    ensures Split(Join(parts, sep), sep) == parts
  {
    if |parts| == 1 {
      SplitNoSep(parts[0], sep);
    } else {
      SplitJoin(parts[1..], sep);
      SplitAtFirst(parts[0], sep, Join(parts[1..], sep));
      assert [parts[0]] + parts[1..] == parts;
    }
  }

  /** A string with no separator splits into itself alone. */
  lemma {:induction false} SplitNoSep(p: string, sep: char)
    requires forall i :: 0 <= i < |p| ==> p[i] != sep
    ensures Split(p, sep) == [p]
    decreases |p|
  {
    if |p| > 0 {
      SplitNoSep(p[1..], sep);
      assert [p[0]] + p[1..] == p;
    }
  }

  /** Splitting at the first separator. */
  lemma {:induction false} SplitAtFirst(p: string, sep: char, rest: string)
    requires forall i :: 0 <= i < |p| ==> p[i] != sep
    ensures Split(p + [sep] + rest, sep) == [p] + Split(rest, sep)
    decreases |p|
  {
    var s := p + [sep] + rest;
    if |p| == 0 {
      assert s[1..] == rest;
    } else {
      assert s[1..] == p[1..] + [sep] + rest;
      SplitAtFirst(p[1..], sep, rest);
      assert [p[0]] + p[1..] == p;
    }
  }

  /** A version with two or more dots keeps exactly its first two parts. */
  lemma MajorMinorOfLong(major: string, minor: string, patch: string)
    requires NoDot(major) && NoDot(minor)
    ensures MajorMinor(major + "." + minor + "." + patch) == major + "." + minor
  {
    var v := major + "." + minor + "." + patch;
    assert v == major + ['.'] + (minor + ['.'] + patch);
    SplitAtFirst(major, '.', minor + ['.'] + patch);
    SplitAtFirst(minor, '.', patch);
    var parts := Split(v, '.');
    assert parts[..2] == [major, minor];
    assert Join([minor], '.') == minor;
    assert Join([major, minor], '.') == major + ['.'] + minor;
  }

  /** A version without a dot is kept whole. */
  lemma MajorMinorOfMajor(major: string)
    requires NoDot(major)
    ensures MajorMinor(major) == major
  {
    SplitNoSep(major, '.');
  }

  /** A version with exactly one dot is kept whole. */
  lemma MajorMinorOfMajorMinor(major: string, minor: string)
    requires NoDot(major) && NoDot(minor)
    ensures MajorMinor(major + "." + minor) == major + "." + minor
  {
    var v := major + "." + minor;
    assert v == major + ['.'] + minor;
    SplitAtFirst(major, '.', minor);
    SplitNoSep(minor, '.');
    var parts := Split(v, '.');
    assert parts == [major, minor];
    assert parts[..2] == parts;
    assert Join([minor], '.') == minor;
    assert Join(parts, '.') == major + ['.'] + minor;
  }

  predicate IsAscii(s: string)
  {
    forall i :: 0 <= i < |s| ==> s[i] as int < 0x80
  }

  /** `s.encode('ascii')`; None is the UnicodeEncodeError. */
  function AsciiEncode(s: string): (r: Option<seq<uint8>>)
    ensures r.Some? <==> IsAscii(s)
    ensures r.Some? ==> |r.value| == |s| && forall i :: 0 <= i < |s| ==> r.value[i] as int == s[i] as int
  {
    if IsAscii(s) then Some(seq(|s|, i requires 0 <= i < |s| => s[i] as int as uint8)) else None
  }

  /** `calculate_profile_magic()`: the SHA-256 of the ASCII-encoded
      major.minor version, read as an integer and masked to its low 64 bits
      (`x & 0xFFFF_FFFF_FFFF_FFFF` equals `x % 2^64` for the non-negative
      integer x). None is the encoding error, which can only come from a
      non-ASCII character within major.minor. */
  function CalculateProfileMagic(src: MagicSource): (r: Option<uint64>)
    ensures r.Some? <==> IsAscii(MajorMinor(src.version))
    ensures r.Some? ==> (src.digest(AsciiEncode(MajorMinor(src.version)).value) - r.value as int) % TWO_TO_64 == 0
  {
    match AsciiEncode(MajorMinor(src.version))
    case None => None
    case Some(bytes) => Some(ToUint64(src.digest(bytes)))
  }

  /** The magic depends only on major.minor: releases that differ in their
      patch component share it. */
  lemma MagicIgnoresPatch(major: string, minor: string, patch1: string, patch2: string,
                          digest: seq<uint8> -> nat)
    requires NoDot(major) && NoDot(minor)
    ensures CalculateProfileMagic(MagicSource(major + "." + minor + "." + patch1, digest))
         == CalculateProfileMagic(MagicSource(major + "." + minor + "." + patch2, digest))
  {
    MajorMinorOfLong(major, minor, patch1);
    MajorMinorOfLong(major, minor, patch2);
  }

  /** Versions 0.6.1 (the packaged release) and 0.6.9 give the same magic,
      and it is defined. */
  lemma MagicOfPatchReleases(digest: seq<uint8> -> nat)
    ensures CalculateProfileMagic(MagicSource("0.6.1", digest))
         == CalculateProfileMagic(MagicSource("0.6.9", digest))
    ensures CalculateProfileMagic(MagicSource("0.6.1", digest)).Some?
  {
    var major, minor := "0", "6";
    assert NoDot(major) && NoDot(minor);
    assert major + "." + minor + "." + "1" == "0.6.1";
    assert major + "." + minor + "." + "9" == "0.6.9";
    MagicIgnoresPatch(major, minor, "1", "9", digest);
    MajorMinorOfLong(major, minor, "1");
    assert IsAscii(major + "." + minor);
  }
}
