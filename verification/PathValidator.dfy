/** Request paths: percent-decoding, its inverse, and the check that decodes until
    nothing changes. Paths are byte strings. */
module PathValidator {
  import opened Collections

  newtype byte = x: int | 0 <= x < 256

  const PERCENT: byte := 37
  const DOT: byte := 46
  const NUL: byte := 0
  const MAX_ROUNDS := 8

  // ---------------------------------------------------------------------
  // Decoding
  // ---------------------------------------------------------------------

  function HexVal(b: byte): Option<byte> {
    if 48 <= b <= 57 then Some(b - 48)
    else if 97 <= b <= 102 then Some(b - 97 + 10)
    else if 65 <= b <= 70 then Some(b - 65 + 10)
    else None
  }

  /** The path starts with a percent sign and two hexadecimal digits. */
  predicate Encoded(s: seq<byte>) {
    |s| > 2 && s[0] == PERCENT && HexVal(s[1]).Some? && HexVal(s[2]).Some?
  }

  lemma HexValSmall(b: byte)
    ensures HexVal(b).Some? ==> HexVal(b).value < 16
  {
  }

  function Octet(hi: byte, lo: byte): byte
    requires hi < 16 && lo < 16
  {
    hi * 16 + lo
  }

  function Decode(s: seq<byte>): seq<byte> {
    if s == [] then []
    else if Encoded(s) then
      HexValSmall(s[1]);
      HexValSmall(s[2]);
      [Octet(HexVal(s[1]).value, HexVal(s[2]).value)] + Decode(s[3..])
    else [s[0]] + Decode(s[1..])
  }

  /** The decoder of the source, which walks the input once. */
  method SimplePercentDecode(bytes: seq<byte>) returns (out: seq<byte>)
    ensures out == Decode(bytes)
  {
    hide Decode;
    out := [];
    var i := 0;
    DecodeStep([]);
    while i < |bytes|
      invariant 0 <= i <= |bytes|
      invariant out + Decode(bytes[i..]) == Decode(bytes)
      decreases |bytes| - i
    {
      DecodeStep(bytes[i..]);
      if bytes[i] == PERCENT && i + 2 < |bytes| {
        var hi, lo := HexVal(bytes[i + 1]), HexVal(bytes[i + 2]);
        if hi.Some? && lo.Some? {
          HexValSmall(bytes[i + 1]);
          HexValSmall(bytes[i + 2]);
          assert Encoded(bytes[i..]) && bytes[i..][3..] == bytes[i + 3..];
          out := out + [Octet(hi.value, lo.value)];
          i := i + 3;
          continue;
        }
      }
      assert !Encoded(bytes[i..]) && bytes[i..][1..] == bytes[i + 1..];
      out := out + [bytes[i]];
      i := i + 1;
    }
    assert bytes[i..] == [] && out + [] == out;
  }

  lemma DecodeStep(s: seq<byte>)
    ensures s == [] ==> Decode(s) == []
    ensures s != [] && Encoded(s) ==>
              && HexVal(s[1]).value < 16 && HexVal(s[2]).value < 16
              && Decode(s) == [Octet(HexVal(s[1]).value, HexVal(s[2]).value)] + Decode(s[3..])
    ensures s != [] && !Encoded(s) ==> Decode(s) == [s[0]] + Decode(s[1..])
  {
  }

  function DecodeTimes(s: seq<byte>, n: nat): seq<byte>
    decreases n
  {
    if n == 0 then s else DecodeTimes(Decode(s), n - 1)
  }

  // ---------------------------------------------------------------------
  // Decoding comes to rest
  // ---------------------------------------------------------------------

  ghost predicate HexDigit(b: byte) { b as char in "0123456789abcdefABCDEF" }

  ghost function DigitValue(b: byte): (v: int)
    requires HexDigit(b)
    ensures 0 <= v < 16
  {
    if b <= 57 then b as int - 48 else if b <= 70 then b as int - 65 + 10 else b as int - 97 + 10
  }

  /** A percent sign and two hexadecimal digits stand for one byte; every other byte, a percent sign without
      them included, stands for itself. */
  lemma DecodeExactly(s: seq<byte>)
    ensures Decode([]) == []
    ensures s != [] ==>
              Decode(s) == if |s| > 2 && s[0] as char == '%' && HexDigit(s[1]) && HexDigit(s[2])
                           then [(16 * DigitValue(s[1]) + DigitValue(s[2])) as byte] + Decode(s[3..])
                           else [s[0]] + Decode(s[1..])
  {
    hide HexDigit, HexVal, DigitValue;
    if |s| > 2 {
      HexDigitExactly(s[1]);
      HexDigitExactly(s[2]);
    }
  }

  lemma HexDigitExactly(b: byte)
    ensures HexVal(b).Some? <==> HexDigit(b)
    ensures HexDigit(b) ==> HexVal(b).value as int == DigitValue(b) < 16
  {
  }

  /** Decoding never lengthens, keeps the length only when it changes nothing, and else drops at least
      two bytes. */
  lemma {:induction false} DecodeShrinks(s: seq<byte>)
    ensures |Decode(s)| <= |s|
    ensures |Decode(s)| == |s| ==> Decode(s) == s
    ensures Decode(s) != s ==> |Decode(s)| + 2 <= |s|
  {
    if s != [] {
      if Encoded(s) {
        DecodeShrinks(s[3..]);
      } else {
        DecodeShrinks(s[1..]);
      }
    }
  }

  /** So repeated decoding reaches a string that decoding does not change, within as many
      rounds as the path has bytes. */
  lemma {:induction false} DecodingComesToRest(s: seq<byte>)
    ensures exists n: nat :: n <= |s| && Decode(DecodeTimes(s, n)) == DecodeTimes(s, n)
    decreases |s|
  {
    DecodeShrinks(s);
    if Decode(s) == s {
      assert DecodeTimes(s, 0) == s;
    } else {
      DecodingComesToRest(Decode(s));
      var n: nat :| n <= |Decode(s)| && Decode(DecodeTimes(Decode(s), n)) == DecodeTimes(Decode(s), n);
      assert DecodeTimes(s, n + 1) == DecodeTimes(Decode(s), n);
    }
  }

  lemma {:induction false} RestStays(s: seq<byte>, n: nat)
    requires Decode(s) == s
    ensures DecodeTimes(s, n) == s
  {
    if n > 0 { RestStays(s, n - 1); }
  }

  lemma {:induction false} TimesAdd(s: seq<byte>, m: nat, n: nat)
    ensures DecodeTimes(s, m + n) == DecodeTimes(DecodeTimes(s, m), n)
    decreases m
  {
    if m > 0 { TimesAdd(Decode(s), m - 1, n); }
  }

  // ---------------------------------------------------------------------
  // Encoding
  // ---------------------------------------------------------------------

  /** How one byte is written: as it is, or as a percent sign and two digits, each of them
      in lower or upper case. */
  datatype Style = Raw | Percent(upperHi: bool, upperLo: bool)

  function Digit(v: byte, upper: bool): byte
    requires v < 16
  {
    if v < 10 then 48 + v else if upper then 65 + (v - 10) else 97 + (v - 10)
  }

  function EncodeByte(b: byte, style: Style): seq<byte> {
    match style
    case Raw => [b]
    case Percent(h, l) => [PERCENT, Digit(b / 16, h), Digit(b % 16, l)]
  }

  function Encode(s: seq<byte>, styles: seq<Style>): seq<byte>
    requires |styles| == |s|
  {
    if s == [] then [] else EncodeByte(s[0], styles[0]) + Encode(s[1..], styles[1..])
  }

  /** Percent signs themselves are always written out; other bytes may be. */
  predicate Proper(s: seq<byte>, styles: seq<Style>) {
    |styles| == |s| && forall i :: 0 <= i < |s| && s[i] == PERCENT ==> styles[i].Percent?
  }

  lemma DigitRoundTrip(v: byte, upper: bool)
    requires v < 16
    ensures HexVal(Digit(v, upper)) == Some(v)
  {
  }

  /** One decode undoes any proper percent-encoding (RFC 3986, section 2.1). */
  lemma {:induction false} DecodeUndoesEncode(s: seq<byte>, styles: seq<Style>)
    requires Proper(s, styles)
    ensures Decode(Encode(s, styles)) == s
  {
    if s != [] {
      var rest := Encode(s[1..], styles[1..]);
      var e := Encode(s, styles);
      DecodeUndoesEncode(s[1..], styles[1..]);
      match styles[0] {
        case Raw =>
          assert e == [s[0]] + rest && e[1..] == rest;
        case Percent(h, l) =>
          var hi, lo := s[0] / 16, s[0] % 16;
          DigitRoundTrip(hi, h);
          DigitRoundTrip(lo, l);
          assert e == [PERCENT, Digit(hi, h), Digit(lo, l)] + rest && e[3..] == rest;
          assert Octet(hi, lo) == s[0];
      }
    }
  }

  /** `q` is `p` under `n` layers of proper encoding, each layer in any style. */
  ghost predicate Layered(q: seq<byte>, p: seq<byte>, n: nat)
    decreases n
  {
    if n == 0 then q == p
    else exists inner, styles :: Layered(inner, p, n - 1) && Proper(inner, styles) && q == Encode(inner, styles)
  }

  lemma {:induction false} LayersComeOff(q: seq<byte>, p: seq<byte>, n: nat)
    requires Layered(q, p, n)
    ensures DecodeTimes(q, n) == p
    decreases n
  {
    hide Decode, Encode;
    if n > 0 {
      var inner, styles :| Layered(inner, p, n - 1) && Proper(inner, styles) && q == Encode(inner, styles);
      DecodeUndoesEncode(inner, styles);
      LayersComeOff(inner, p, n - 1);
    }
  }

  // ---------------------------------------------------------------------
  // The ASCII part of a path
  // ---------------------------------------------------------------------

  const OTHER: byte := 128

  predicate Ascii(b: byte) { b < 128 }

  /** The path with every run of bytes beyond ASCII replaced by one such byte. */
  function Skeleton(s: seq<byte>): seq<byte> {
    if s == [] then [] else Onto(s[0], Skeleton(s[1..]))
  }

  function Onto(b: byte, rest: seq<byte>): seq<byte> {
    if Ascii(b) then [b] + rest
    else if rest != [] && !Ascii(rest[0]) then rest
    else [OTHER] + rest
  }

  /** Turning bytes into text replaces runs of bytes beyond ASCII by others, and touches nothing else. */
  ghost predicate KeepsAscii(repair: seq<byte> -> seq<byte>) {
    forall s :: Skeleton(repair(s)) == Skeleton(s)
  }

  lemma SkeletonHead(s: seq<byte>)
    ensures s == [] <==> Skeleton(s) == []
    ensures s != [] ==> Skeleton(s) == Onto(s[0], Skeleton(s[1..]))
    ensures s != [] && Ascii(s[0]) ==> Skeleton(s)[0] == s[0] && Skeleton(s)[1..] == Skeleton(s[1..])
    ensures s != [] && !Ascii(s[0]) ==> Skeleton(s)[0] == OTHER
    decreases |s|
  {
  }

  /** A byte beyond ASCII before another one leaves no trace in the skeleton. */
  lemma SkeletonMerges(s: seq<byte>)
    requires |s| > 1 && !Ascii(s[0]) && !Ascii(s[1])
    ensures Skeleton(s) == Skeleton(s[1..])
  {
  }

  /** Whether a path starts with an encoded byte shows in its skeleton. */
  lemma EncodedOfSkeleton(a: seq<byte>, b: seq<byte>)
    requires Skeleton(a) == Skeleton(b) && Encoded(a)
    ensures |b| > 2 && b[0] == a[0] && b[1] == a[1] && b[2] == a[2] && Skeleton(a[3..]) == Skeleton(b[3..])
  {
    SameAsciiHead(a, b);
    SameAsciiHead(a[1..], b[1..]);
    SameAsciiHead(a[2..], b[2..]);
    assert a[1..][1..] == a[2..] && a[2..][1..] == a[3..];
    assert b[1..][1..] == b[2..] && b[2..][1..] == b[3..];
  }

  lemma SameAsciiHead(a: seq<byte>, b: seq<byte>)
    requires Skeleton(a) == Skeleton(b) && a != [] && Ascii(a[0])
    ensures b != [] && b[0] == a[0] && Skeleton(a[1..]) == Skeleton(b[1..])
  {
    SkeletonHead(a);
    SkeletonHead(b);
  }

  lemma DecodeHead(s: seq<byte>)
    requires s != [] && !Ascii(s[0])
    ensures Decode(s) != [] && !Ascii(Decode(s)[0]) && Decode(s)[1..] == Decode(s[1..])
  {
  }

  /** What decoding does to the skeleton depends on the skeleton only. */
  lemma {:induction false} DecodeOfSkeleton(a: seq<byte>, b: seq<byte>)
    requires Skeleton(a) == Skeleton(b)
    ensures Skeleton(Decode(a)) == Skeleton(Decode(b))
    decreases |a| + |b|
  {
    hide Skeleton, Decode;
    SkeletonHead(a);
    SkeletonHead(b);
    DecodeStep(a);
    DecodeStep(b);
    if a == [] {
    } else if Encoded(a) || Encoded(b) {
      if Encoded(a) { EncodedOfSkeleton(a, b); } else { EncodedOfSkeleton(b, a); }
      DecodeOfSkeleton(a[3..], b[3..]);
      SkeletonHead(Decode(a));
      SkeletonHead(Decode(b));
      assert Decode(a)[1..] == Decode(a[3..]) && Decode(b)[1..] == Decode(b[3..]);
    } else if !Ascii(a[0]) && |a| > 1 && !Ascii(a[1]) {
      SkeletonMerges(a);
      DecodeOfSkeleton(a[1..], b);
      DecodeHead(a);
      DecodeHead(a[1..]);
      SkeletonMerges(Decode(a));
    } else if !Ascii(b[0]) && |b| > 1 && !Ascii(b[1]) {
      SkeletonMerges(b);
      DecodeOfSkeleton(a, b[1..]);
      DecodeHead(b);
      DecodeHead(b[1..]);
      SkeletonMerges(Decode(b));
    } else {
      SkeletonRest(a, b);
      DecodeOfSkeleton(a[1..], b[1..]);
      SkeletonHead(Decode(a));
      SkeletonHead(Decode(b));
      assert Decode(a)[1..] == Decode(a[1..]) && Decode(b)[1..] == Decode(b[1..]);
    }
  }

  /** Heads that are no longer runs come off together. */
  lemma SkeletonRest(a: seq<byte>, b: seq<byte>)
    requires Skeleton(a) == Skeleton(b) && a != [] && b != []
    requires Ascii(a[0]) || |a| == 1 || Ascii(a[1])
    requires Ascii(b[0]) || |b| == 1 || Ascii(b[1])
    ensures Skeleton(a[1..]) == Skeleton(b[1..])
    ensures a[0] == b[0] || (!Ascii(a[0]) && !Ascii(b[0]))
  {
    SkeletonHead(a);
    SkeletonHead(b);
    SkeletonHead(a[1..]);
    SkeletonHead(b[1..]);
    assert Skeleton(a)[1..] == Skeleton(a[1..]);
    assert Skeleton(b)[1..] == Skeleton(b[1..]);
  }

  // ---------------------------------------------------------------------
  // The check
  // ---------------------------------------------------------------------

  /** Contains two dots in a row or a NUL byte. */
  predicate Bad(s: seq<byte>) {
    || (exists i :: 0 <= i < |s| - 1 && s[i] == DOT && s[i + 1] == DOT)
    || NUL in s
  }

  /** No decoding level up to the eighth is bad. */
  ghost predicate Safe(s: seq<byte>) {
    forall n: nat :: n <= MAX_ROUNDS ==> !Bad(DecodeTimes(s, n))
  }

  /** The check. After each decode the program turns the bytes back into text, which replaces what is not
      UTF-8; `repair` stands for that. Whatever it does beyond ASCII, and whether or not the loop stops early,
      the check accepts exactly the paths none of whose first nine levels is bad. */
  method IsSafeRequestPath(path: seq<byte>, repair: seq<byte> -> seq<byte>) returns (safe: bool)
    requires KeepsAscii(repair)
    ensures safe == Safe(path)
  {
    hide Decode, Bad, Skeleton, KeepsAscii;
    assert DecodeTimes(path, 0) == path;
    if Bad(path) {
      return false;
    }
    var current := path;
    for round := 0 to MAX_ROUNDS
      invariant Skeleton(current) == Skeleton(DecodeTimes(path, round))
      invariant forall n: nat :: n <= round ==> !Bad(DecodeTimes(path, n))
    {
      var decoded := SimplePercentDecode(current);
      decoded := repair(decoded);
      RepairedLevel(path, round, current, repair);
      if Bad(decoded) {
        return false;
      }
      if decoded == current {
        NextLevel(path, round);
        RestingLevels(path, round);
        return true;
      }
      current := decoded;
    }
    return true;
  }

  /** No zero byte and no two dots in a row. */
  ghost predicate Presentable(s: seq<byte>) {
    && 0 !in s
    && forall i :: 0 <= i < |s| - 1 ==> !(s[i] as char == '.' && s[i + 1] as char == '.')
  }

  lemma BadExactly(s: seq<byte>)
    ensures Bad(s) <==> !Presentable(s)
  {
  }

  ghost predicate PresentableTo(path: seq<byte>, rounds: nat) {
    forall n: nat :: n <= rounds ==> Presentable(DecodeTimes(path, n))
  }

  /** Safe is a path that is presentable from itself to its eighth level. */
  lemma SafeExactly(path: seq<byte>)
    ensures Safe(path) <==> PresentableTo(path, 8)
  {
    hide Bad, Presentable, Decode;
    if Safe(path) {
      forall n: nat | n <= 8 ensures Presentable(DecodeTimes(path, n)) {
        BadExactly(DecodeTimes(path, n));
      }
    } else {
      var n: nat :| n <= MAX_ROUNDS && Bad(DecodeTimes(path, n));
      BadExactly(DecodeTimes(path, n));
    }
  }

  /** One round on a repaired level looks, in its ASCII part, like one round on the level itself. */
  lemma RepairedLevel(path: seq<byte>, round: nat, current: seq<byte>, repair: seq<byte> -> seq<byte>)
    requires KeepsAscii(repair) && Skeleton(current) == Skeleton(DecodeTimes(path, round))
    ensures Skeleton(repair(Decode(current))) == Skeleton(DecodeTimes(path, round + 1))
    ensures Bad(repair(Decode(current))) <==> Bad(DecodeTimes(path, round + 1))
    ensures Bad(current) <==> Bad(DecodeTimes(path, round))
  {
    hide Decode, Bad, Skeleton;
    NextLevel(path, round);
    DecodeOfSkeleton(current, DecodeTimes(path, round));
    assert Skeleton(repair(Decode(current))) == Skeleton(Decode(current));
    BadOfSkeleton(repair(Decode(current)));
    BadOfSkeleton(DecodeTimes(path, round + 1));
    BadOfSkeleton(current);
    BadOfSkeleton(DecodeTimes(path, round));
  }

  lemma NextLevel(s: seq<byte>, n: nat)
    ensures DecodeTimes(s, n + 1) == Decode(DecodeTimes(s, n))
  {
    TimesAdd(s, n, 1);
    assert DecodeTimes(DecodeTimes(s, n), 1) == Decode(DecodeTimes(s, n));
  }

  /** Once a round changes nothing in the ASCII part, the levels seen so far are all that matter. */
  lemma RestingLevels(s: seq<byte>, rounds: nat)
    requires forall n: nat :: n <= rounds ==> !Bad(DecodeTimes(s, n))
    requires Skeleton(Decode(DecodeTimes(s, rounds))) == Skeleton(DecodeTimes(s, rounds))
    ensures forall n: nat :: !Bad(DecodeTimes(s, n))
  {
    hide Decode, Bad, Skeleton;
    forall n: nat ensures !Bad(DecodeTimes(s, n)) {
      if n > rounds {
        RestingSkeleton(s, rounds, n);
        BadOfSkeleton(DecodeTimes(s, rounds));
        BadOfSkeleton(DecodeTimes(s, n));
      }
    }
  }

  lemma {:induction false} RestingSkeleton(s: seq<byte>, m: nat, n: nat)
    requires m <= n && Skeleton(Decode(DecodeTimes(s, m))) == Skeleton(DecodeTimes(s, m))
    ensures Skeleton(DecodeTimes(s, n)) == Skeleton(DecodeTimes(s, m))
    decreases n
  {
    hide Decode, Skeleton;
    if m < n {
      RestingSkeleton(s, m, n - 1);
      NextLevel(s, n - 1);
      DecodeOfSkeleton(DecodeTimes(s, n - 1), DecodeTimes(s, m));
    }
  }

  /** Badness survives decoding: dots and NUL bytes are not part of any encoded byte. */
  lemma {:induction false} BadPersists(s: seq<byte>)
    requires Bad(s)
    ensures Bad(Decode(s))
  {
    var d := Decode(s);
    DecodeStep(s);
    if Encoded(s) {
      var rest := Decode(s[3..]);
      assert Bad(s[3..]) by { BadTail(s, 3); }
      BadPersists(s[3..]);
      BadCons(d[0], rest);
    } else if s[0] == NUL {
      assert d[0] == NUL;
    } else if |s| > 1 && s[0] == DOT && s[1] == DOT {
      DecodeStep(s[1..]);
      assert d[0] == DOT && d[1] == DOT;
    } else {
      BadTail(s, 1);
      BadPersists(s[1..]);
      BadCons(s[0], Decode(s[1..]));
    }
  }

  lemma BadTail(s: seq<byte>, k: nat)
    requires Bad(s) && k <= |s|
    requires forall i :: 0 <= i < k ==> s[i] != NUL && !(s[i] == DOT && i + 1 < |s| && s[i + 1] == DOT)
    ensures Bad(s[k..])
  {
  }

  lemma BadCons(b: byte, s: seq<byte>)
    requires Bad(s)
    ensures Bad([b] + s)
  {
    var t := [b] + s;
    if i :| 0 <= i < |s| - 1 && s[i] == DOT && s[i + 1] == DOT {
      assert t[i + 1] == DOT && t[i + 2] == DOT;
    }
  }

  lemma {:induction false} BadPersistsTimes(s: seq<byte>, m: nat, n: nat)
    requires m <= n && Bad(DecodeTimes(s, m))
    ensures Bad(DecodeTimes(s, n))
    decreases n - m
  {
    if m < n {
      NextLevel(s, m);
      BadPersists(DecodeTimes(s, m));
      BadPersistsTimes(s, m + 1, n);
    }
  }

  /** Badness shows in the skeleton. */
  lemma {:induction false} BadOfSkeleton(s: seq<byte>)
    ensures Bad(s) <==> Bad(Skeleton(s))
  {
    hide Bad;
    if s == [] {
    } else {
      var rest := Skeleton(s[1..]);
      BadOfSkeleton(s[1..]);
      SkeletonHead(s);
      if |s| > 1 { SkeletonHead(s[1..]); }
      BadUnfold(s);
      BadUnfold(Skeleton(s));
      if !Ascii(s[0]) && rest != [] && !Ascii(rest[0]) {
      } else {
        assert Skeleton(s)[1..] == rest;
      }
    }
  }

  lemma BadUnfold(s: seq<byte>)
    requires s != []
    ensures Bad(s) <==> s[0] == NUL || (|s| > 1 && s[0] == DOT && s[1] == DOT) || Bad(s[1..])
  {
  }

  /** So the check decides on the eighth level alone. */
  lemma SafeIsEighthLevel(s: seq<byte>)
    ensures Safe(s) <==> !Bad(DecodeTimes(s, MAX_ROUNDS))
  {
    forall n: nat | n <= MAX_ROUNDS && Bad(DecodeTimes(s, n)) ensures Bad(DecodeTimes(s, MAX_ROUNDS)) {
      BadPersistsTimes(s, n, MAX_ROUNDS);
    }
  }

  /** A path under up to eight layers of encoding, in any style, is rejected if it is bad, and accepted
      if and only if the level the remaining rounds reach is harmless. */
  lemma HiddenPathIsCaught(q: seq<byte>, p: seq<byte>, n: nat)
    requires n <= MAX_ROUNDS && Layered(q, p, n)
    ensures Bad(p) ==> !Safe(q)
    ensures Safe(q) <==> !Bad(DecodeTimes(p, MAX_ROUNDS - n))
  {
    LayersComeOff(q, p, n);
    TimesAdd(q, n, MAX_ROUNDS - n);
    SafeIsEighthLevel(q);
    assert DecodeTimes(p, 0) == p;
    if Bad(p) { BadPersistsTimes(p, 0, MAX_ROUNDS - n); }
  }

  /** Acceptance with the path at rest within the rounds means that no level at all is bad. */
  lemma AtRestMeansAllLevels(s: seq<byte>, rounds: nat)
    requires Safe(s) && rounds <= MAX_ROUNDS
    requires Decode(DecodeTimes(s, rounds)) == DecodeTimes(s, rounds)
    ensures forall n: nat :: !Bad(DecodeTimes(s, n))
  {
    RestingLevels(s, rounds);
  }

  /** After `n` rounds the path is at rest, or has lost two bytes in each. */
  lemma {:induction false} RestOrShrinks(s: seq<byte>, n: nat)
    ensures var d := DecodeTimes(s, n); Decode(d) == d || |d| + 2 * n <= |s|
    decreases n
  {
    hide Decode;
    if n > 0 {
      RestOrShrinks(Decode(s), n - 1);
      DecodeShrinks(s);
      if Decode(s) == s { RestStays(s, n); }
    }
  }

  /** No level at all is bad. */
  ghost predicate Harmless(s: seq<byte>) { forall n: nat :: !Bad(DecodeTimes(s, n)) }

  /** No level at all is bad if and only if the level is harmless after as many rounds as the path has bytes. */
  lemma AllLevelsHarmlessIff(s: seq<byte>)
    ensures Harmless(s) <==> !Bad(DecodeTimes(s, |s|))
  {
    hide Decode, Bad;
    forall n: nat | Bad(DecodeTimes(s, n)) ensures Bad(DecodeTimes(s, |s|)) {
      if n <= |s| {
        BadPersistsTimes(s, n, |s|);
      } else {
        RestOrShrinks(s, |s|);
        TimesAdd(s, |s|, n - |s|);
        EmptyRests(DecodeTimes(s, |s|));
        RestStays(DecodeTimes(s, |s|), n - |s|);
      }
    }
  }

  lemma EmptyRests(s: seq<byte>)
    ensures s == [] ==> Decode(s) == s
  {
  }

  /** The verdict promised: acceptance exactly if no level is bad, however often the path is decoded. */
  ghost predicate VerdictRight(s: seq<byte>) { Safe(s) <==> Harmless(s) }

  /** The verdict is the one promised if and only if a path that turns bad within as many rounds as it has
      bytes has done so by the eighth. */
  lemma VerdictRightExactly(s: seq<byte>)
    ensures VerdictRight(s) <==> (Bad(DecodeTimes(s, |s|)) ==> Bad(DecodeTimes(s, MAX_ROUNDS)))
  {
    SafeIsEighthLevel(s);
    AllLevelsHarmlessIff(s);
    assert Harmless(s) ==> !Bad(DecodeTimes(s, MAX_ROUNDS));
    hide Decode, Bad, DecodeTimes, Safe, Harmless;
  }

  /** It is for every path at rest by the eighth round, and so for every path of at most 18 bytes. */
  lemma VerdictRightAtRest(s: seq<byte>)
    requires Decode(DecodeTimes(s, MAX_ROUNDS)) == DecodeTimes(s, MAX_ROUNDS) || |s| <= 2 * MAX_ROUNDS + 2
    ensures VerdictRight(s)
  {
    var d := DecodeTimes(s, MAX_ROUNDS);
    RestOrShrinks(s, MAX_ROUNDS);
    if Decode(d) != d {
      assert |d| <= 2;
      ShortRests(d);
    }
    if Safe(s) {
      AtRestMeansAllLevels(s, MAX_ROUNDS);
    }
  }

  lemma ShortRests(s: seq<byte>)
    requires |s| <= 2
    ensures Decode(s) == s
  {
    DecodeShrinks(s);
  }

  // ---------------------------------------------------------------------
  // What the cap lets through
  // ---------------------------------------------------------------------

  predicate AllPercent(styles: seq<Style>) { forall i :: 0 <= i < |styles| ==> styles[i].Percent? }

  lemma {:induction false} FullyEncodedIsHarmless(s: seq<byte>, styles: seq<Style>)
    requires |styles| == |s| && AllPercent(styles)
    ensures forall i :: 0 <= i < |Encode(s, styles)| ==> Encode(s, styles)[i] != DOT && Encode(s, styles)[i] != NUL
    ensures !Bad(Encode(s, styles))
  {
    if s != [] {
      FullyEncodedIsHarmless(s[1..], styles[1..]);
    }
  }

  /** `n` layers in which every byte is written out. */
  ghost predicate FullyLayered(q: seq<byte>, p: seq<byte>, n: nat)
    decreases n
  {
    if n == 0 then q == p
    else exists inner, styles :: FullyLayered(inner, p, n - 1) && FullyEncodes(q, inner, styles)
  }

  ghost predicate FullyEncodes(q: seq<byte>, inner: seq<byte>, styles: seq<Style>) {
    |styles| == |inner| && AllPercent(styles) && q == Encode(inner, styles)
  }

  lemma PeelOne(q: seq<byte>, inner: seq<byte>, styles: seq<Style>)
    requires FullyEncodes(q, inner, styles)
    ensures Decode(q) == inner && !Bad(q)
  {
    DecodeUndoesEncode(inner, styles);
    FullyEncodedIsHarmless(inner, styles);
  }

  lemma {:induction false} OuterLevelsHarmless(q: seq<byte>, p: seq<byte>, n: nat, k: nat)
    requires FullyLayered(q, p, n) && k < n
    ensures !Bad(DecodeTimes(q, k))
    decreases k
  {
    hide Decode, Bad, FullyEncodes;
    var inner, styles :| FullyLayered(inner, p, n - 1) && FullyEncodes(q, inner, styles);
    PeelOne(q, inner, styles);
    if k > 0 {
      OuterLevelsHarmless(inner, p, n - 1, k - 1);
    }
  }

  /** Past eight layers the cap hides any path: the check accepts, however bad the path is. */
  lemma CapLetsThrough(q: seq<byte>, p: seq<byte>, n: nat)
    requires n > MAX_ROUNDS && FullyLayered(q, p, n)
    ensures Safe(q)
  {
    OuterLevelsHarmless(q, p, n, MAX_ROUNDS);
    SafeIsEighthLevel(q);
  }

  function FullStyles(n: nat): seq<Style> { seq(n, _ => Percent(false, false)) }

  function EncodeLayers(p: seq<byte>, n: nat): seq<byte>
    decreases n
  {
    if n == 0 then p else var inner := EncodeLayers(p, n - 1); Encode(inner, FullStyles(|inner|))
  }

  lemma {:induction false} EncodeLayersIsFull(p: seq<byte>, n: nat)
    ensures FullyLayered(EncodeLayers(p, n), p, n)
  {
    if n > 0 {
      var inner := EncodeLayers(p, n - 1);
      EncodeLayersIsFull(p, n - 1);
      assert FullyEncodes(EncodeLayers(p, n), inner, FullStyles(|inner|));
    }
  }

  /** Two dots under nine layers get through; under eight they do not. */
  lemma NineLayersGetThrough()
    ensures Bad([DOT, DOT]) && Safe(EncodeLayers([DOT, DOT], 9)) && !Safe(EncodeLayers([DOT, DOT], 8))
  {
    var p := [DOT, DOT];
    assert p[0] == DOT && p[1] == DOT;
    EncodeLayersIsFull(p, 9);
    EncodeLayersIsFull(p, 8);
    CapLetsThrough(EncodeLayers(p, 9), p, 9);
    FullIsLayered(EncodeLayers(p, 8), p, 8);
    HiddenPathIsCaught(EncodeLayers(p, 8), p, 8);
  }

  lemma {:induction false} FullIsLayered(q: seq<byte>, p: seq<byte>, n: nat)
    requires FullyLayered(q, p, n)
    ensures Layered(q, p, n)
    decreases n
  {
    if n > 0 {
      var inner, styles :| FullyLayered(inner, p, n - 1) && FullyEncodes(q, inner, styles);
      FullIsLayered(inner, p, n - 1);
      assert Proper(inner, styles);
    }
  }
}
