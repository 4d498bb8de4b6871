/**
  Launch-mode selection: the argument dispatch of `Program.Main` in
  Program.cs.

  The first argument is lower-cased, trimmed of white space and cut to its
  first two characters; "/p" selects the preview inside the window whose
  handle is the second argument, "/c" the (empty) configuration dialog, and
  anything else, or no argument at all, the full-screen screensaver. The
  source does not guard its string operations, so three inputs end the
  process with an exception instead: a first argument shorter than two
  characters once trimmed (`Substring(0, 2)`), "/p" with no second argument
  (`args[1]`), and a second argument that `long.Parse` rejects.

  The .NET library calls are modelled explicitly: `ToLower` on ASCII letters,
  `Trim` with the white-space characters of `char.IsWhiteSpace`, and
  `long.Parse` with the `NumberStyles.Integer` rules (white space around,
  an optional sign, decimal digits, a value that fits in 64 bits).
*/
module LaunchMode {
  import opened Common

  const Int64Min := -0x8000_0000_0000_0000
  const Int64Max := 0x7FFF_FFFF_FFFF_FFFF

  type Int64 = x: int | Int64Min <= x <= Int64Max

  datatype Mode = FullScreen | Preview(handle: Int64) | Configure

  /** The exceptions the dispatch can raise, one per unguarded operation. */
  datatype LaunchError =
    | FlagTooShort      // Substring(0, 2) on fewer than two characters
    | MissingHandle     // args[1] on a one-element argument list
    | HandleNotNumber   // long.Parse: FormatException
    | HandleOutOfRange  // long.Parse: OverflowException

  // ---------------------------------------------------------------------------
  // String helpers of the .NET library

  /** `char.IsWhiteSpace`: the Unicode space separators, the line and
      paragraph separators, and the control characters U+0009 to U+000D and
      U+0085. */
  predicate IsWhiteSpaceChar(ch: char) {
    ch == ' ' || '\t' <= ch <= '\r' || ch == '\U{0085}' || ch == '\U{00A0}' || ch == '\U{1680}'
    || '\U{2000}' <= ch <= '\U{200A}' || ch == '\U{2028}' || ch == '\U{2029}' || ch == '\U{202F}'
    || ch == '\U{205F}' || ch == '\U{3000}'
  }

  /** What `String.Trim()` removes. */
  const WhiteSpace: set<char> := set ch: char | '\t' <= ch <= '\U{3000}' && IsWhiteSpaceChar(ch)

  /** The white space `NumberStyles.AllowLeadingWhite` and
      `AllowTrailingWhite` skip around a number. */
  const NumberWhite: set<char> := set ch: char | '\t' <= ch <= ' ' && (ch == ' ' || ch <= '\r')

  predicate AllSpace(s: string, ws: set<char>) {
    forall i :: 0 <= i < |s| ==> s[i] in ws
  }

  predicate IsUpper(ch: char) {
    'A' <= ch <= 'Z'
  }

  function LowerChar(ch: char): char {
    if IsUpper(ch) then (ch as int + 32) as char else ch
  }

  /** `String.ToLower` on ASCII text: no upper-case letter is left, each one
      becomes its lower-case letter, and every other character is kept. */
  function ToLower(s: string): (t: string)
    ensures |t| == |s|
    ensures forall i :: 0 <= i < |t| ==> !IsUpper(t[i])
    ensures forall i :: 0 <= i < |s| && !IsUpper(s[i]) ==> t[i] == s[i]
    ensures forall i :: 0 <= i < |s| && IsUpper(s[i]) ==> t[i] as int - s[i] as int == 'a' as int - 'A' as int
  {
    seq(|s|, i requires 0 <= i < |s| => LowerChar(s[i]))
  }

  /** Text without upper-case letters is its own lower-case form. */
  lemma {:induction false} ToLowerOfLower(s: string)
    requires forall i :: 0 <= i < |s| ==> !IsUpper(s[i])
    ensures ToLower(s) == s
  {
  }

  /** Lowering twice is lowering once. */
  lemma {:induction false} ToLowerIdempotent(s: string)
    ensures ToLower(ToLower(s)) == ToLower(s)
  {
    ToLowerOfLower(ToLower(s));
  }

  /** Lowering works character by character, so it distributes over
      concatenation. */
  lemma {:induction false} ToLowerAppend(a: string, b: string)
    ensures ToLower(a + b) == ToLower(a) + ToLower(b)
  {
    var l, r := ToLower(a + b), ToLower(a) + ToLower(b);
    forall i | 0 <= i < |l| ensures l[i] == r[i] {
      if i < |a| {
        assert (a + b)[i] == a[i];
      } else {
        assert (a + b)[i] == b[i - |a|];
      }
    }
  }

  /** White space has no case. */
  lemma {:induction false} ToLowerKeepsSpace(w: string)
    requires AllSpace(w, WhiteSpace)
    ensures ToLower(w) == w
  {
    ToLowerOfLower(w);
  }

  /** How many characters at the start of s are in ws: all before that
      index are, the one at it is not. */
  function LeadingCount(s: string, ws: set<char>): (k: nat)
    ensures k <= |s|
    ensures forall i :: 0 <= i < k ==> s[i] in ws
    ensures k < |s| ==> s[k] !in ws
    decreases |s|
  {
    if s != [] && s[0] in ws then 1 + LeadingCount(s[1..], ws) else 0
  }

  /** Where the characters in ws at the end of s begin: all from that index
      on are, the one before it is not. */
  function TrailingStart(s: string, ws: set<char>): (k: nat)
    ensures k <= |s|
    ensures forall i :: k <= i < |s| ==> s[i] in ws
    ensures 0 < k ==> s[k - 1] !in ws
    decreases |s|
  {
    if s != [] && s[|s| - 1] in ws then TrailingStart(s[..|s| - 1], ws) else |s|
  }

  function TrimStart(s: string, ws: set<char>): string {
    s[LeadingCount(s, ws)..]
  }

  function TrimEnd(s: string, ws: set<char>): string {
    s[..TrailingStart(s, ws)]
  }

  /** Drops the characters in ws from both ends (`String.Trim`): nothing is
      left exactly when every character is in ws, and otherwise the result
      starts and ends outside ws. */
  function Trim(s: string, ws: set<char>): (t: string)
    ensures t == [] <==> AllSpace(s, ws)
    ensures t == [] || (t[0] !in ws && t[|t| - 1] !in ws)
  {
    var e := TrimEnd(s, ws);
    var t := TrimStart(e, ws);
    assert t == [] ==> AllSpace(s, ws) by {
      if t == [] {
        forall i | 0 <= i < |s| ensures s[i] in ws {
          if i < |e| { assert e[i] == s[i]; }
        }
      }
    }
    t
  }

  /** The leading run of a concatenation reaches into the second part only
      when the first part is all in ws. */
  lemma {:induction false} LeadingCountAppend(a: string, b: string, ws: set<char>)
    ensures LeadingCount(a + b, ws) == if LeadingCount(a, ws) == |a| then |a| + LeadingCount(b, ws) else LeadingCount(a, ws)
  {
    var ka, kb := LeadingCount(a, ws), LeadingCount(b, ws);
    if ka < |a| {
      assert (a + b)[ka] == a[ka];
    } else if kb < |b| {
      assert (a + b)[|a| + kb] == b[kb];
    }
  }

  /** The trailing run of a concatenation reaches into the first part only
      when the second part is all in ws. */
  lemma {:induction false} TrailingStartAppend(a: string, b: string, ws: set<char>)
    ensures TrailingStart(a + b, ws) == if TrailingStart(b, ws) == 0 then TrailingStart(a, ws) else |a| + TrailingStart(b, ws)
  {
    var ka, kb := TrailingStart(a, ws), TrailingStart(b, ws);
    if 0 < kb {
      assert (a + b)[|a| + kb - 1] == b[kb - 1];
    } else if 0 < ka {
      assert (a + b)[ka - 1] == a[ka - 1];
    }
  }

  /** A run of white space is trimmed away entirely, from either end. */
  lemma {:induction false} SpaceRun(w: string, ws: set<char>)
    requires AllSpace(w, ws)
    ensures LeadingCount(w, ws) == |w| && TrailingStart(w, ws) == 0
  {
  }

  /** Cutting the trailing white space of w1 + s + w2 leaves w1 and what is
      left of s, unless s is all white space too. */
  lemma {:induction false} TrimEndPadded(w1: string, s: string, w2: string, ws: set<char>)
    requires AllSpace(w1, ws) && AllSpace(w2, ws)
    ensures TrimEnd(w1 + s + w2, ws) == if TrailingStart(s, ws) == 0 then [] else w1 + TrimEnd(s, ws)
  {
    var k := TrailingStart(s, ws);
    assert TrailingStart(w1 + s + w2, ws) == if k == 0 then 0 else |w1| + k by {
      SpaceRun(w1, ws);
      SpaceRun(w2, ws);
      TrailingStartAppend(w1 + s, w2, ws);
      TrailingStartAppend(w1, s, ws);
    }
    if k != 0 {
      assert (w1 + s + w2)[..|w1| + k] == w1 + s[..k];
    }
  }

  /** White space added at either end does not change the trimmed text. */
  lemma {:induction false} TrimIgnoresPadding(w1: string, s: string, w2: string, ws: set<char>)
    requires AllSpace(w1, ws) && AllSpace(w2, ws)
    ensures Trim(w1 + s + w2, ws) == Trim(s, ws)
  {
    TrimEndPadded(w1, s, w2, ws);
    var e := TrimEnd(s, ws);
    if TrailingStart(s, ws) != 0 {
      var k := LeadingCount(e, ws);
      assert LeadingCount(w1 + e, ws) == |w1| + k by {
        SpaceRun(w1, ws);
        LeadingCountAppend(w1, e, ws);
      }
      assert (w1 + e)[|w1| + k..] == e[k..];
    }
  }

  // ---------------------------------------------------------------------------
  // long.Parse

  predicate IsDigit(ch: char) {
    '0' <= ch <= '9'
  }

  predicate AllDigits(s: string) {
    forall i :: 0 <= i < |s| ==> IsDigit(s[i])
  }

  /** The value of a string of decimal digits, most significant first. */
  function DigitsValue(ds: string): nat
    requires AllDigits(ds)
    decreases |ds|
  {
    if ds == [] then 0
    else 10 * DigitsValue(ds[..|ds| - 1]) + (ds[|ds| - 1] as int - '0' as int)
  }

  /** `long.Parse` with `NumberStyles.Integer`: optional white space, an
      optional '+' or '-', one or more decimal digits, optional white space,
      and a value within the 64-bit range. */
  function ParseLong(s: string): (r: Result<Int64, LaunchError>)
    ensures r.Ok? || r == Err(HandleNotNumber) || r == Err(HandleOutOfRange)
    ensures r != Err(HandleNotNumber) <==> IsIntegerText(Trim(s, NumberWhite))
    ensures r.Ok? && r.value < 0 ==> Trim(s, NumberWhite)[0] == '-'
  {
    ParseSigned(Trim(s, NumberWhite))
  }

  /** The shape `NumberStyles.Integer` accepts once the white space is
      gone: a digit or a sign first, digits after it, and at least one
      digit. */
  predicate IsIntegerText(t: string) {
    |t| > 0
    && (IsDigit(t[0]) || ((t[0] == '-' || t[0] == '+') && |t| > 1))
    && forall i :: 1 <= i < |t| ==> IsDigit(t[i])
  }

  /** The number without the white space around it. */
  function ParseSigned(t: string): Result<Int64, LaunchError> {
    if t == [] then Err(HandleNotNumber)
    else
      var negative := t[0] == '-';
      var digits := if t[0] == '-' || t[0] == '+' then t[1..] else t;
      if digits == [] || !AllDigits(digits) then Err(HandleNotNumber)
      else
        var v: int := DigitsValue(digits);
        InRange(if negative then -v else v)
  }

  /** The value if it fits in 64 bits, an overflow otherwise. */
  function InRange(n: int): Result<Int64, LaunchError> {
    if Int64Min <= n <= Int64Max then Ok(n) else Err(HandleOutOfRange)
  }

  function Signed(sign: string, v: nat): int {
    if sign == "-" then -(v as int) else v
  }

  /** A signed string of digits parses to its value, or overflows. */
  lemma {:induction false} ParseSignedDigits(sign: string, d: string)
    requires sign == "" || sign == "-"
    requires d != [] && AllDigits(d)
    ensures ParseSigned(sign + d) == InRange(Signed(sign, DigitsValue(d)))
  {
    var t := sign + d;
    if sign == "-" {
      assert t[0] == '-' && t[1..] == d;
    } else {
      assert t == d && IsDigit(t[0]);
    }
  }

  function DigitChar(d: int): (ch: char)
    requires 0 <= d < 10
    ensures IsDigit(ch) && ch as int - '0' as int == d
  {
    ('0' as int + d) as char
  }

  /** The decimal digits of n, most significant first, without leading
      zeros. */
  function Decimal(n: nat): (s: string)
    ensures |s| > 0 && AllDigits(s)
    ensures |s| > 1 ==> s[0] != '0'
    decreases n
  {
    if n < 10 then [DigitChar(n)] else Decimal(n / 10) + [DigitChar(n % 10)]
  }

  /** The decimal form of a 64-bit value, with '-' for a negative one: what
      the preview host passes as the window handle. */
  function FormatLong(n: Int64): string {
    var m: int := n;
    if m < 0 then "-" + Decimal(-m) else Decimal(m)
  }

  lemma {:induction false} DigitsValueDecimal(n: nat)
    ensures DigitsValue(Decimal(n)) == n
    decreases n
  {
    if n >= 10 {
      var s := Decimal(n);
      assert s[..|s| - 1] == Decimal(n / 10);
      DigitsValueDecimal(n / 10);
    }
  }

  /** A text that starts and ends outside ws is its own trimmed form. */
  lemma {:induction false} TrimUnpadded(s: string, ws: set<char>)
    requires s != [] && s[0] !in ws && s[|s| - 1] !in ws
    ensures Trim(s, ws) == s
  {
    assert TrimEnd(s, ws) == s;
  }

  /** An optional minus sign and the digits of v, with no white space
      around: what `ParseLong` sees of it. */
  lemma {:induction false} ParseLongDecimal(sign: string, v: nat)
    requires sign == "" || sign == "-"
    ensures ParseLong(sign + Decimal(v)) == InRange(Signed(sign, v))
  {
    var d := Decimal(v);
    var s := sign + d;
    assert s[0] !in NumberWhite && s[|s| - 1] !in NumberWhite by {
      assert IsDigit(d[0]) && IsDigit(d[|d| - 1]);
      assert s[|s| - 1] == d[|d| - 1];
      assert s[0] == if sign == "-" then '-' else d[0];
    }
    TrimUnpadded(s, NumberWhite);
    DigitsValueDecimal(v);
    ParseSignedDigits(sign, d);
  }

  /** `long.Parse` reads back every 64-bit value written in decimal. */
  lemma {:induction false} ParseLongFormatLong(n: Int64)
    ensures ParseLong(FormatLong(n)) == Ok(n)
  {
    var m: int := n;
    if m < 0 {
      assert FormatLong(n) == "-" + Decimal(-m);
      ParseLongDecimal("-", -m);
      assert Signed("-", -m) == m;
    } else {
      assert FormatLong(n) == "" + Decimal(m);
      ParseLongDecimal("", m);
      assert Signed("", m) == m;
    }
  }

  /** Decimal values past the 64-bit range overflow rather than fail to
      parse, whichever their sign. */
  lemma {:induction false} ParseLongOutOfRange(v: nat)
    requires v > Int64Max + 1
    ensures ParseLong(Decimal(v)) == Err(HandleOutOfRange)
    ensures ParseLong("-" + Decimal(v)) == Err(HandleOutOfRange)
  {
    ParseLongDecimal("", v);
    assert "" + Decimal(v) == Decimal(v);
    ParseLongDecimal("-", v);
  }

  /** A blank on either side of "+42" is trimmed away. */
  lemma TrimPaddedSign()
    ensures Trim(" +42 ", NumberWhite) == "+42"
  {
    assert " " + "+42" + " " == " +42 ";
    assert AllSpace(" ", NumberWhite);
    TrimIgnoresPadding(" ", "+42", " ", NumberWhite);
    TrimUnpadded("+42", NumberWhite);
  }

  /** White space around the number and a '+' sign are accepted. */
  lemma ParseLongAcceptsPaddingAndSign()
    ensures ParseLong(" +42 ") == Ok(42)
  {
    TrimPaddedSign();
    assert ParseSigned("+42") == Ok(42) by {
      assert "+42"[0] == '+' && "+42"[1..] == "42" && AllDigits("42");
      assert DigitsValue("4") == 4 by {
        assert "4"[..0] == [];
      }
      assert DigitsValue("42") == 42 by {
        assert "42"[..1] == "4";
      }
    }
  }

  /** Anything other than digits after the sign is refused. */
  lemma ParseLongRejects()
    ensures ParseLong("") == Err(HandleNotNumber)
    ensures ParseLong("0x1F") == Err(HandleNotNumber)
    ensures ParseLong("- 3") == Err(HandleNotNumber)
  {
    TrimUnpadded("0x1F", NumberWhite);
    assert !IsDigit("0x1F"[1]);
    TrimUnpadded("- 3", NumberWhite);
    assert "- 3"[1..][0] == ' ';
  }

  // ---------------------------------------------------------------------------
  // The dispatch

  /** The mode flag: the first two characters of the lower-cased, trimmed
      argument; None where `Substring(0, 2)` throws. */
  function Flag(arg: string): (f: Option<string>)
    ensures f.Some? ==> |f.value| == 2 && f.value[0] !in WhiteSpace
    ensures f.Some? ==> !IsUpper(f.value[0]) && !IsUpper(f.value[1])
    ensures f.None? <==> |Trim(ToLower(arg), WhiteSpace)| < 2
  {
    var t := Trim(ToLower(arg), WhiteSpace);
    if |t| < 2 then None else Some(t[..2])
  }

  /** `Program.Main`: the mode the argument list selects, or the exception
      it raises. */
  function SelectMode(args: seq<string>): (r: Result<Mode, LaunchError>)
    ensures r == Ok(FullScreen) <==> |args| == 0 || (Flag(args[0]).Some? && Flag(args[0]).value != "/p" && Flag(args[0]).value != "/c")
    ensures r == Ok(Configure) <==> |args| > 0 && Flag(args[0]) == Some("/c")
    ensures r.Ok? && r.value.Preview? <==> |args| > 1 && Flag(args[0]) == Some("/p") && ParseLong(args[1]).Ok?
    ensures r.Err? <==> |args| > 0 && (Flag(args[0]).None? || (Flag(args[0]) == Some("/p") && (|args| == 1 || ParseLong(args[1]).Err?)))
    ensures r.Ok? && r.value.Preview? ==> ParseLong(args[1]) == Ok(r.value.handle)
    ensures r == Err(FlagTooShort) <==> |args| > 0 && Flag(args[0]).None?
    ensures r == Err(MissingHandle) <==> |args| == 1 && Flag(args[0]) == Some("/p")
    ensures |args| > 1 && Flag(args[0]) == Some("/p") && ParseLong(args[1]).Err? ==> r == Err(ParseLong(args[1]).error)
  {
    if |args| == 0 then Ok(FullScreen)
    else
      match Flag(args[0])
      case None => Err(FlagTooShort)
      case Some(flag) =>
        if flag == "/p" then
          if |args| < 2 then Err(MissingHandle)
          else
            match ParseLong(args[1])
            case Ok(handle) => Ok(Preview(handle))
            case Err(e) => Err(e)
        else if flag == "/c" then Ok(Configure)
        else Ok(FullScreen)
  }

  /** The flag is read case-insensitively and white space around the first
      argument is ignored. */
  lemma {:induction false} FlagIgnoresCaseAndPadding(a: string, b: string, w1: string, w2: string)
    requires ToLower(a) == ToLower(b)
    requires AllSpace(w1, WhiteSpace) && AllSpace(w2, WhiteSpace)
    ensures Flag(w1 + a + w2) == Flag(b)
  {
    ToLowerAppend(w1 + a, w2);
    ToLowerAppend(w1, a);
    ToLowerKeepsSpace(w1);
    ToLowerKeepsSpace(w2);
    TrimIgnoresPadding(w1, ToLower(a), w2, WhiteSpace);
  }

  lemma {:induction false} SelectModeIgnoresCaseAndPadding(a: string, b: string, w1: string, w2: string, rest: seq<string>)
    requires ToLower(a) == ToLower(b)
    requires AllSpace(w1, WhiteSpace) && AllSpace(w2, WhiteSpace)
    ensures SelectMode([w1 + a + w2] + rest) == SelectMode([b] + rest)
  {
    FlagIgnoresCaseAndPadding(a, b, w1, w2);
    assert ([w1 + a + w2] + rest)[0] == w1 + a + w2;
    assert ([b] + rest)[0] == b;
    assert ([w1 + a + w2] + rest)[1..] == rest && ([b] + rest)[1..] == rest;
  }

  /** Trimming keeps a lowered two-character prefix with no white space in
      front of whatever follows it. */
  lemma {:induction false} TrimKeepsPrefix(lf: string, lq: string)
    requires |lf| == 2 && lf[0] !in WhiteSpace && lf[1] !in WhiteSpace
    ensures 2 <= |Trim(lf + lq, WhiteSpace)| && Trim(lf + lq, WhiteSpace)[..2] == lf
  {
    TrailingStartAppend(lf, lq, WhiteSpace);
    assert TrailingStart(lf, WhiteSpace) == 2;
    var e := TrimEnd(lf + lq, WhiteSpace);
    assert e[0] == lf[0];
    assert LeadingCount(e, WhiteSpace) == 0;
    assert e[..2] == (lf + lq)[..2] == lf;
  }

  /** Only the first two characters of the flag matter: "/c:1234" is read
      as "/c". */
  lemma {:induction false} FlagIgnoresSuffix(f: string, q: string)
    requires |f| == 2 && f[0] !in WhiteSpace && f[1] !in WhiteSpace
    ensures Flag(f + q) == Flag(f)
  {
    var lf, lq := ToLower(f), ToLower(q);
    ToLowerAppend(f, q);
    assert lf[0] !in WhiteSpace && lf[1] !in WhiteSpace;
    TrimKeepsPrefix(lf, lq);
    TrimUnpadded(lf, WhiteSpace);
  }

  lemma {:induction false} SelectModeIgnoresFlagSuffix(f: string, q: string, rest: seq<string>)
    requires |f| == 2 && f[0] !in WhiteSpace && f[1] !in WhiteSpace
    ensures SelectMode([f + q] + rest) == SelectMode([f] + rest)
  {
    FlagIgnoresSuffix(f, q);
    assert ([f + q] + rest)[0] == f + q && ([f] + rest)[0] == f;
    assert ([f + q] + rest)[1..] == rest && ([f] + rest)[1..] == rest;
  }

  /** The preview host's handle, written in decimal, is the handle the
      preview form is embedded in. */
  lemma {:induction false} SelectModePreviewHandle(f: string, n: Int64, rest: seq<string>)
    requires Flag(f) == Some("/p")
    ensures SelectMode([f, FormatLong(n)] + rest) == Ok(Preview(n))
  {
    ParseLongFormatLong(n);
    assert ([f, FormatLong(n)] + rest)[0] == f && ([f, FormatLong(n)] + rest)[1] == FormatLong(n);
  }

  /** The handle may be padded and signed: it is the value `long.Parse`
      reads from it. */
  lemma SelectModePaddedHandle()
    ensures SelectMode(["/p", " +42 "]) == Ok(Preview(42))
  {
    FlagOfPlain("/p");
    ParseLongAcceptsPaddingAndSign();
  }

  /** A flag already in lower case, with no white space: it is its own
      flag. */
  lemma {:induction false} FlagOfPlain(f: string)
    requires |f| == 2 && f[0] !in WhiteSpace && f[1] !in WhiteSpace
    requires !IsUpper(f[0]) && !IsUpper(f[1])
    ensures Flag(f) == Some(f)
  {
    ToLowerOfLower(f);
    TrimUnpadded(f, WhiteSpace);
  }

  /** Upper case is read as lower case. */
  lemma FlagUpperCase()
    ensures Flag("/P") == Some("/p")
  {
    assert "" + "/P" + "" == "/P";
    assert ToLower("/P") == ToLower("/p");
    FlagOfPlain("/p");
    FlagIgnoresCaseAndPadding("/P", "/p", "", "");
  }

  /** Leading blanks and a suffix after the two flag characters are
      ignored. */
  lemma FlagPaddedWithSuffix()
    ensures Flag("  /c:123") == Some("/c")
  {
    assert "  " + "/c:123" + "" == "  /c:123";
    assert "/c" + ":123" == "/c:123";
    assert AllSpace("  ", WhiteSpace);
    FlagOfPlain("/c");
    FlagIgnoresSuffix("/c", ":123");
    FlagIgnoresCaseAndPadding("/c:123", "/c:123", "  ", "");
  }

  /** A leading blank before "/" is trimmed away. */
  lemma TrimPaddedSlash()
    ensures Trim(" /", WhiteSpace) == "/"
  {
    assert " " + "/" + "" == " /";
    assert AllSpace(" ", WhiteSpace) && AllSpace("", WhiteSpace);
    TrimIgnoresPadding(" ", "/", "", WhiteSpace);
    TrimUnpadded("/", WhiteSpace);
  }

  /** One character once trimmed is too short for `Substring(0, 2)`. */
  lemma FlagTooShortExample()
    ensures Flag(" /") == None
  {
    assert ToLower(" /") == " /";
    TrimPaddedSlash();
  }

  /** No argument, or an unknown flag such as "/s", shows the screensaver
      full screen. */
  lemma SelectModeFullScreenExamples()
    ensures SelectMode([]) == Ok(FullScreen)
    ensures SelectMode(["/s"]) == Ok(FullScreen)
  {
    FlagOfPlain("/s");
  }

  /** The host's preview and configure invocations. */
  lemma SelectModePreviewAndConfigureExamples()
    ensures SelectMode(["/P", "42"]) == Ok(Preview(42))
    ensures SelectMode(["  /c:123"]) == Ok(Configure)
  {
    assert FormatLong(42) == "42" by {
      assert Decimal(42) == Decimal(4) + [DigitChar(2)];
    }
    FlagUpperCase();
    FlagPaddedWithSuffix();
    ParseLongFormatLong(42);
  }

  /** The three inputs on which the source throws. */
  lemma SelectModeErrorExamples()
    ensures SelectMode([" /"]) == Err(FlagTooShort)
    ensures SelectMode(["/p"]) == Err(MissingHandle)
    ensures SelectMode(["/p", "abc"]) == Err(HandleNotNumber)
  {
    assert ParseLong("abc") == Err(HandleNotNumber) by {
      TrimUnpadded("abc", NumberWhite);
      assert !IsDigit("abc"[0]);
    }
    FlagTooShortExample();
    FlagOfPlain("/p");
  }
}
