/** 8.3 names (fat16.c, and "FAT Directory Structure" of the Microsoft FAT specification). A C
    string is the sequence of its bytes before the terminating zero. */
module FatNames {
  import opened Common

  const SPACE: Byte := 0x20
  const DOT: Byte := 0x2E
  const DELETED: Byte := 0xE5

  function Lower(c: Byte): Byte
  {
    if 0x41 <= c <= 0x5A then c + 32 else c
  }

  function Upper(c: Byte): Byte
  {
    if 0x61 <= c <= 0x7A then c - 32 else c
  }

  function LowerAll(s: seq<Byte>): (r: seq<Byte>)
    ensures |r| == |s| && forall i :: 0 <= i < |s| ==> r[i] == Lower(s[i])
  {
    seq(|s|, i requires 0 <= i < |s| => Lower(s[i]))
  }

  /** Index of the last dot, or |s|. */
  function LastDot(s: seq<Byte>): (d: nat)
    ensures d <= |s|
    ensures d < |s| ==> s[d] == DOT && forall i :: d < i < |s| ==> s[i] != DOT
    ensures d == |s| ==> forall i :: 0 <= i < |s| ==> s[i] != DOT
  {
    if s == [] then 0
    else if s[|s| - 1] == DOT then |s| - 1
    else
      var d := LastDot(s[..|s| - 1]);
      if d == |s| - 1 then |s| else d
  }

  function Base(s: seq<Byte>): seq<Byte>
  {
    s[..LastDot(s)]
  }

  function Ext(s: seq<Byte>): seq<Byte>
  {
    if LastDot(s) < |s| then s[LastDot(s) + 1..] else []
  }

  /** A name part, upper-cased and padded with spaces to n bytes. */
  function Padded(s: seq<Byte>, n: nat): (r: seq<Byte>)
    requires |s| <= n
    ensures |r| == n
    ensures forall i :: 0 <= i < n ==> r[i] == if i < |s| then Upper(s[i]) else SPACE
  {
    seq(n, i requires 0 <= i < n => if i < |s| then Upper(s[i]) else SPACE)
  }

  /** fat16_make_83. */
  function Make83(s: seq<Byte>): (r: Option<seq<Byte>>)
    ensures r.Some? <==> 0 < |Base(s)| <= 8 && |Ext(s)| <= 3
    ensures r.Some? ==> |r.value| == 11
  {
    if |Base(s)| == 0 || |Base(s)| > 8 || |Ext(s)| > 3 then None
    else Some(Padded(Base(s), 8) + Padded(Ext(s), 3))
  }

  /** The bytes before the first space. */
  function UpToSpace(s: seq<Byte>): (r: seq<Byte>)
    ensures |r| <= |s| && r == s[..|r|]
    ensures forall i :: 0 <= i < |r| ==> r[i] != SPACE
    ensures |r| < |s| ==> s[|r|] == SPACE
  {
    if s == [] || s[0] == SPACE then [] else [s[0]] + UpToSpace(s[1..])
  }

  /** fat16_format_name on the 11-byte name field. */
  function FormatName(field: seq<Byte>): (r: seq<Byte>)
    requires |field| == 11
  {
    var base := LowerAll(UpToSpace(field[..8]));
    if field[8] == SPACE && field[9] == SPACE && field[10] == SPACE then base
    else base + [DOT] + LowerAll(UpToSpace(field[8..]))
  }

  /** fat16_name_eq. */
  predicate NameEq(a: seq<Byte>, b: seq<Byte>)
  {
    LowerAll(a) == LowerAll(b)
  }

  /** A name that survives the 8.3 field: no spaces and no dot at the end. */
  predicate Survives(s: seq<Byte>)
  {
    SPACE !in s && (s != [] ==> s[|s| - 1] != DOT)
  }

  lemma LowerUpper(s: seq<Byte>)
    ensures forall c: Byte :: Lower(Upper(c)) == Lower(c) && (Upper(c) == SPACE <==> c == SPACE)
  {
  }

  /** Formatting a padded part gives back the part up to its first space. */
  lemma PartRoundTrip(s: seq<Byte>, n: nat)
    requires |s| <= n
    ensures |UpToSpace(Padded(s, n))| <= |s|
    ensures |UpToSpace(Padded(s, n))| == |s| <==> SPACE !in s
    ensures SPACE !in s ==> LowerAll(UpToSpace(Padded(s, n))) == LowerAll(s)
  {
    var p := Padded(s, n);
    var u := UpToSpace(p);
    LowerUpper(s);
    assert forall i :: 0 <= i < |u| ==> u[i] == p[i];
    if |s| < n {
      assert p[|s|] == SPACE;
    }
    if |u| < n {
      assert p[|u|] == SPACE;
    }
    if SPACE in s {
      var i :| 0 <= i < |s| && s[i] == SPACE;
      assert p[i] == SPACE;
    } else {
      assert forall i :: 0 <= i < |s| ==> p[i] == Upper(s[i]) && p[i] != SPACE;
    }
  }

  lemma SplitAt(s: seq<Byte>, d: nat)
    requires d < |s| && s[d] == DOT
    ensures s == s[..d] + [DOT] + s[d + 1..]
    ensures SPACE in s <==> SPACE in s[..d] || SPACE in s[d + 1..]
  {
    assert s == s[..d] + [DOT] + s[d + 1..];
  }

  lemma SplitName(s: seq<Byte>)
    ensures LastDot(s) < |s| ==> s == Base(s) + [DOT] + Ext(s)
    ensures LastDot(s) == |s| ==> s == Base(s) && Ext(s) == []
    ensures SPACE in s <==> SPACE in Base(s) || SPACE in Ext(s)
  {
    if LastDot(s) < |s| {
      SplitAt(s, LastDot(s));
    }
  }

  /** FormatName of an encoded name, part by part. */
  lemma FormatParts(s: seq<Byte>)
    requires Make83(s).Some?
    ensures FormatName(Make83(s).value) ==
            LowerAll(UpToSpace(Padded(Base(s), 8))) +
            if forall i :: 0 <= i < |Ext(s)| ==> Ext(s)[i] == SPACE then []
            else [DOT] + LowerAll(UpToSpace(Padded(Ext(s), 3)))
  {
    var f, x := Make83(s).value, Ext(s);
    LowerUpper(x);
    assert f[..8] == Padded(Base(s), 8) && f[8..] == Padded(x, 3);
    assert f[8] == Padded(x, 3)[0] && f[9] == Padded(x, 3)[1] && f[10] == Padded(x, 3)[2];
    var base := LowerAll(UpToSpace(f[..8]));
    assert base + [] == base;
    assert base + [DOT] + LowerAll(UpToSpace(f[8..])) == base + ([DOT] + LowerAll(UpToSpace(f[8..])));
  }

  /** Encoding a name and formatting it again gives the same name, up to case, exactly for names
      without spaces and without a final dot. */
  lemma NameRoundTrip(s: seq<Byte>)
    requires Make83(s).Some?
    ensures NameEq(FormatName(Make83(s).value), s) <==> Survives(s)
  {
    SplitName(s);
    FormatParts(s);
    PartRoundTrip(Base(s), 8);
    PartRoundTrip(Ext(s), 3);
    if Survives(s) {
      SurvivingName(s);
    } else {
      assert |FormatName(Make83(s).value)| < |s|;
    }
  }

  lemma SurvivingName(s: seq<Byte>)
    requires Make83(s).Some? && Survives(s)
    ensures NameEq(FormatName(Make83(s).value), s)
  {
    var b, x := Base(s), Ext(s);
    SplitName(s);
    FormatParts(s);
    PartRoundTrip(b, 8);
    PartRoundTrip(x, 3);
    if LastDot(s) < |s| {
      assert x[0] != SPACE;
      LowerJoin(b, x);
    }
    LowerTwice(s);
  }

  lemma LowerJoin(b: seq<Byte>, x: seq<Byte>)
    ensures LowerAll(b + [DOT] + x) == LowerAll(b) + ([DOT] + LowerAll(x))
  {
  }

  lemma LowerTwice(s: seq<Byte>)
    ensures LowerAll(LowerAll(s)) == LowerAll(s)
  {
  }
}
