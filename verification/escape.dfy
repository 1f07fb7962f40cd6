/**
 * The escape decoder: text typed by a user, with Go rune-literal style
 * backslash escapes, to the raw key bytes it stands for.
 *   \a \b \f \n \r \t \v \\ \' \"   a named control byte
 *   \xHH                             a byte in hex (scan errors are ignored)
 *   \ddd                             otherwise: a byte in octal (scan errors fail)
 */
module Escape {
  import opened Wrappers
  import opened Bytes

  const Backslash: Byte := 0x5C
  const LetterX: Byte := 0x78
  const Newline: Byte := 0x0A
  const Underscore: Byte := 0x5F

  /** The letters that name an escape, `abfnrtv\'"`, in lookup order. */
  const EscapeLetters: seq<Byte> := [0x61, 0x62, 0x66, 0x6E, 0x72, 0x74, 0x76, 0x5C, 0x27, 0x22]
  /** The byte each letter stands for, at the same index: BEL BS FF LF CR TAB VT \ ' ". */
  const EscapedBytes: seq<Byte> := [0x07, 0x08, 0x0C, 0x0A, 0x0D, 0x09, 0x0B, 0x5C, 0x27, 0x22]

  /** The errors decodeKey returns: both come back from the reader or from the octal Sscanf unchanged. */
  datatype EscapeError =
    | EndOfInput    // io.EOF: a backslash is the last byte, or an octal window holds only spaces
    | SyntaxError   // any other Sscanf error: unexpected newline, no digits, a bad digit, overflow

  /** strings.IndexByte: the first index of `c` in `table`, or -1. */
  function IndexOf(table: seq<Byte>, c: Byte): (k: int)
    ensures -1 <= k < |table|
    ensures k == -1 <==> c !in table
    ensures 0 <= k ==> table[k] == c && c !in table[..k]
  {
    if table == [] then -1
    else if table[0] == c then 0
    else
      var k := IndexOf(table[1..], c);
      if k == -1 then -1
      else
        assert table[..k + 1] == [table[0]] + table[1..][..k];
        k + 1
  }

  /** bytes.Buffer.Next(k) at read offset `pos`: up to k bytes, fewer at the end. */
  function Next(s: seq<Byte>, pos: nat, k: nat): (n: seq<Byte>)
    requires pos <= |s|
    ensures |n| == if pos + k <= |s| then k else |s| - pos
    ensures n == s[pos..pos + |n|]
  {
    if pos + k <= |s| then s[pos..pos + k] else s[pos..]
  }

  // ---------------------------------------------------------------------
  // fmt.Sscanf(window, "%02x" or "%03o", &c) with c a byte
  // ---------------------------------------------------------------------

  /** The hex digits in value order, as strconv spells them in lower and in upper case. */
  const LowerHexDigits: seq<Byte> := [0x30, 0x31, 0x32, 0x33, 0x34, 0x35, 0x36, 0x37, 0x38, 0x39, 0x61, 0x62, 0x63, 0x64, 0x65, 0x66]
  const UpperHexDigits: seq<Byte> := [0x30, 0x31, 0x32, 0x33, 0x34, 0x35, 0x36, 0x37, 0x38, 0x39, 0x41, 0x42, 0x43, 0x44, 0x45, 0x46]

  /** The value of a hex digit (either case): its index in a digit table; -1 for any other byte. */
  function DigitValue(c: Byte): (d: int)
    ensures -1 <= d < 16
    ensures d == -1 <==> !(0x30 <= c <= 0x39 || 0x61 <= c <= 0x66 || 0x41 <= c <= 0x46)
  {
    if 0x30 <= c <= 0x39 then c - 0x30
    else if 0x61 <= c <= 0x66 then c - 0x61 + 10
    else if 0x41 <= c <= 0x46 then c - 0x41 + 10
    else -1
  }

  /** DigitValue is the index of a digit in the digit tables, and -1 off them. */
  lemma DigitValueIndexesTables(c: Byte)
    ensures DigitValue(c) == -1 <==> c !in LowerHexDigits && c !in UpperHexDigits
    ensures 0 <= DigitValue(c) ==> c == LowerHexDigits[DigitValue(c)] || c == UpperHexDigits[DigitValue(c)]
  {
  }

  predicate IsDigit(c: Byte, base: nat)
  {
    0 <= DigitValue(c) < base
  }

  /** The white space the scanner skips before a number (a newline is an error instead). */
  predicate IsSkippedSpace(c: Byte)
  {
    c == 0x09 || c == 0x0B || c == 0x0C || c == 0x0D || c == 0x20
  }

  /**
   * Skip leading white space: what is left is a suffix of `w` after a run of
   * skippable spaces, and starts with neither; None exactly when a newline
   * ends that run.
   */
  function SkipSpace(w: seq<Byte>): (r: Option<seq<Byte>>)
    ensures r.Some? ==> |r.value| <= |w| && r.value == w[|w| - |r.value|..]
    ensures r.Some? ==> forall i :: 0 <= i < |w| - |r.value| ==> IsSkippedSpace(w[i])
    ensures r.Some? ==> r.value == [] || (!IsSkippedSpace(r.value[0]) && r.value[0] != Newline)
    ensures r.None? <==> exists k :: 0 <= k < |w| && w[k] == Newline && forall i :: 0 <= i < k ==> IsSkippedSpace(w[i])
  {
    if w == [] then Some([])
    else if w[0] == Newline then None
    else if IsSkippedSpace(w[0]) then
      var r := SkipSpace(w[1..]);
      if r.None? then
        var k :| 0 <= k < |w[1..]| && w[1..][k] == Newline && forall i :: 0 <= i < k ==> IsSkippedSpace(w[1..][i]);
        assert w[k + 1] == Newline && forall i :: 0 <= i < k + 1 ==> IsSkippedSpace(w[i]);
        r
      else
        r
    else
      Some(w)
  }

  /** Length of the longest prefix of digits of `base` and underscores (the scanned token). */
  function TokenLength(w: seq<Byte>, base: nat): (n: nat)
    ensures n <= |w|
    ensures forall i :: 0 <= i < n ==> IsDigit(w[i], base) || w[i] == Underscore
    ensures n < |w| ==> !IsDigit(w[n], base) && w[n] != Underscore
  {
    if w != [] && (IsDigit(w[0], base) || w[0] == Underscore) then 1 + TokenLength(w[1..], base)
    else 0
  }

  /** The number whose digits in `base` are `tok`, most significant first. */
  function Number(tok: seq<Byte>, base: nat): nat
    requires forall i :: 0 <= i < |tok| ==> IsDigit(tok[i], base)
  {
    if tok == [] then 0
    else
      var high := Number(tok[..|tok| - 1], base);
      MulMonotone(0, high, base);
      assert IsDigit(tok[|tok| - 1], base);
      high * base + DigitValue(tok[|tok| - 1])
  }

  /**
   * One unsigned 8-bit scan of a digit window: skip spaces, meet the end of
   * input (io.EOF) if nothing else is left, take the token of digits and
   * underscores, and fail on an empty token, on an underscore (strconv
   * rejects it for an explicit base) or on a value over 255.
   */
  function ScanUint8(window: seq<Byte>, base: nat): (r: Result<Byte, EscapeError>)
    ensures r == Err(EndOfInput) <==> forall i :: 0 <= i < |window| ==> IsSkippedSpace(window[i])
  {
    match SkipSpace(window)
    case None => Err(SyntaxError)
    case Some(w) =>
      if w == [] then Err(EndOfInput)
      else
        var tok := w[..TokenLength(w, base)];
        if tok == [] || Underscore in tok then Err(SyntaxError)
        else
          assert forall i :: 0 <= i < |tok| ==> IsDigit(tok[i], base);
          var v := Number(tok, base);
          if v > 255 then Err(SyntaxError) else Ok(v)
  }

  // ---------------------------------------------------------------------
  // The decoder, as a function on the unread suffix and as Go's loop
  // ---------------------------------------------------------------------

  /** Put one decoded byte in front of the rest of a decode. */
  function Cons(b: Byte, r: Result<seq<Byte>, EscapeError>): (r': Result<seq<Byte>, EscapeError>)
    ensures r'.Ok? == r.Ok?
    ensures r'.Ok? ==> r'.value == [b] + r.value
    ensures r'.Err? ==> r' == r
  {
    if r.Ok? then Ok([b] + r.value) else r
  }

  /** Put a decoded prefix in front of the rest of a decode. */
  function Prepend(p: seq<Byte>, r: Result<seq<Byte>, EscapeError>): (r': Result<seq<Byte>, EscapeError>)
    ensures r'.Ok? == r.Ok?
    ensures r'.Ok? ==> r'.value == p + r.value
    ensures r'.Err? ==> r' == r
  {
    if r.Ok? then Ok(p + r.value) else r
  }

  lemma PrependCons(p: seq<Byte>, b: Byte, r: Result<seq<Byte>, EscapeError>)
    ensures Prepend(p, Cons(b, r)) == Prepend(p + [b], r)
  {
    if r.Ok? {
      assert p + ([b] + r.value) == (p + [b]) + r.value;
    }
  }

  /** One step of the decoder at the head of a non-empty unread text. */
  datatype Step = Emit(out: Byte, used: nat) | Stop(error: EscapeError)

  /**
   * The byte the head of `s` stands for and how many bytes it takes, or why
   * the decode stops there.
   */
  function NextStep(s: seq<Byte>): (st: Step)
    requires s != []
    ensures st.Emit? ==> 1 <= st.used <= |s|
    ensures st.Stop? ==> s[0] == Backslash
  {
    if s[0] != Backslash then Emit(s[0], 1)
    else if |s| == 1 then Stop(EndOfInput)
    else
      var k := IndexOf(EscapeLetters, s[1]);
      if k != -1 then Emit(EscapedBytes[k], 2)
      else if s[1] == LetterX then HexWindowStep(Next(s, 2, 2))
      else OctalWindowStep(Next(s, 1, 3))
  }

  /**
   * The decoder meets the end of input (io.EOF) exactly at a backslash whose
   * window of up to three following bytes holds only skippable spaces: a
   * final backslash, or an octal window the scan finds empty.
   */
  lemma NextStepEndOfInput(s: seq<Byte>)
    requires s != []
    ensures NextStep(s) == Stop(EndOfInput) <==>
      s[0] == Backslash && forall i :: 1 <= i < |s| && i < 4 ==> IsSkippedSpace(s[i])
  {
    if s[0] == Backslash && |s| > 1 {
      var k := IndexOf(EscapeLetters, s[1]);
      if k != -1 {
        NamedStepEmits(s, k);
      } else if s[1] == LetterX {
        HexStepEmits(s);
      } else {
        OctalEndOfInput(s);
      }
    }
  }

  lemma NamedStepEmits(s: seq<Byte>, k: int)
    requires |s| > 1 && s[0] == Backslash && k == IndexOf(EscapeLetters, s[1]) && k != -1
    ensures NextStep(s).Emit? && !IsSkippedSpace(s[1])
  {
    LetterIsNoSpace(k);
    assert NextStep(s) == Emit(EscapedBytes[k], 2);
  }

  lemma LetterIsNoSpace(k: nat)
    requires k < |EscapeLetters|
    ensures !IsSkippedSpace(EscapeLetters[k])
  {
  }

  lemma HexStepEmits(s: seq<Byte>)
    requires |s| > 1 && s[0] == Backslash && IndexOf(EscapeLetters, s[1]) == -1 && s[1] == LetterX
    ensures NextStep(s).Emit? && !IsSkippedSpace(s[1])
  {
    HexStep(s, ScanUint8(Next(s, 2, 2), 16));
  }

  lemma OctalEndOfInput(s: seq<Byte>)
    requires |s| > 1 && s[0] == Backslash && IndexOf(EscapeLetters, s[1]) == -1 && s[1] != LetterX
    ensures NextStep(s) == Stop(EndOfInput) <==> forall i :: 1 <= i < |s| && i < 4 ==> IsSkippedSpace(s[i])
  {
    var w := Next(s, 1, 3);
    assert NextStep(s) == OctalWindowStep(w);
    assert OctalWindowStep(w) == Stop(EndOfInput) <==> ScanUint8(w, 8) == Err(EndOfInput);
    WindowIsSuffix(s, w);
  }

  lemma WindowIsSuffix(s: seq<Byte>, w: seq<Byte>)
    requires |s| > 1 && w == Next(s, 1, 3)
    ensures (forall i :: 0 <= i < |w| ==> IsSkippedSpace(w[i])) <==> (forall i :: 1 <= i < |s| && i < 4 ==> IsSkippedSpace(s[i]))
  {
    assert forall i :: 1 <= i < |s| && i < 4 ==> s[i] == w[i - 1];
    assert forall i :: 0 <= i < |w| ==> w[i] == s[i + 1];
  }

  /** `\x` and its window: the scanned byte, or the backslash when the scan fails. */
  function HexWindowStep(digits: seq<Byte>): (st: Step)
    ensures st.Emit? && st.used == 2 + |digits|
  {
    match ScanUint8(digits, 16)
    case Ok(v) => Emit(v, 2 + |digits|)
    case Err(_) => Emit(Backslash, 2 + |digits|)
  }

  /** `\` and an octal window: the scanned byte, or the scan's error. */
  function OctalWindowStep(digits: seq<Byte>): (st: Step)
    ensures st.Emit? ==> st.used == 1 + |digits|
  {
    match ScanUint8(digits, 8)
    case Err(e) => Stop(e)
    case Ok(v) => Emit(v, 1 + |digits|)
  }

  /**
   * The bytes a text stands for. A decoded text is never longer than the
   * text: every byte emitted consumes at least one byte of input.
   */
  function Unescape(s: seq<Byte>): (r: Result<seq<Byte>, EscapeError>)
    ensures r.Ok? ==> |r.value| <= |s|
    decreases |s|
  {
    if s == [] then Ok([])
    else
      match NextStep(s)
      case Stop(e) => Err(e)
      case Emit(b, used) => Cons(b, Unescape(s[used..]))
  }

  /** Unescape takes one step at the head of a non-empty text. */
  lemma UnescapeStep(s: seq<Byte>, st: Step)
    requires s != [] && NextStep(s) == st
    ensures st.Emit? ==> st.used <= |s| && Unescape(s) == Cons(st.out, Unescape(s[st.used..]))
    ensures st.Stop? ==> Unescape(s) == Err(st.error)
  {
  }

  /**
   * An emitting step at read offset `start` moves one byte from the unread
   * text to the output and keeps the decoder's loop invariant.
   */
  lemma EmitAt(text: seq<Byte>, buf: seq<Byte>, start: nat, b: Byte, pos: nat)
    requires start < pos && start < |text| && NextStep(text[start..]) == Emit(b, pos - start)
    requires Unescape(text) == Prepend(buf, Unescape(text[start..]))
    ensures pos <= |text|
    ensures Unescape(text) == Prepend(buf + [b], Unescape(text[pos..]))
  {
    assert text[start..][pos - start..] == text[pos..];
    PrependCons(buf, b, Unescape(text[pos..]));
  }

  /** A stopping step at read offset `start` ends the whole decode with its error. */
  lemma StopAt(text: seq<Byte>, buf: seq<Byte>, start: nat, e: EscapeError)
    requires start < |text| && NextStep(text[start..]) == Stop(e)
    requires Unescape(text) == Prepend(buf, Unescape(text[start..]))
    ensures Unescape(text) == Err(e)
  {
  }

  /** decodeKey: Go's reader loop over the text, appending to `buf`. */
  method DecodeKey(text: seq<Byte>) returns (r: Result<seq<Byte>, EscapeError>)
    ensures r == Unescape(text)
  {
    var buf: seq<Byte> := [];
    var pos: nat := 0;
    assert text[pos..] == text;
    assert Unescape(text).Ok? ==> [] + Unescape(text).value == Unescape(text).value;
    while true
      invariant pos <= |text|
      invariant Unescape(text) == Prepend(buf, Unescape(text[pos..]))
      decreases |text| - pos
    {
      if pos == |text| {
        break;  // ReadByte: io.EOF
      }
      ghost var start := pos;
      var c := text[pos];
      pos := pos + 1;
      if c != Backslash {
        PlainStep(text[start..]);
        EmitAt(text, buf, start, c, pos);
        buf := buf + [c];
        continue;
      }
      var n := Next(text, pos, 1);
      pos := pos + |n|;
      if |n| == 0 {
        StopAt(text, buf, start, EndOfInput);
        return Err(EndOfInput);
      }
      assert n == [text[start + 1]] && pos == start + 2;
      var idx := IndexOf(EscapeLetters, n[0]);
      if idx != -1 {
        NamedStepAt(text, start, idx);
        EmitAt(text, buf, start, EscapedBytes[idx], pos);
        buf := buf + [EscapedBytes[idx]];
        continue;
      }
      if n[0] == LetterX {
        var digits := Next(text, pos, 2);
        pos := pos + |digits|;
        match ScanUint8(digits, 16) {
          case Ok(v) => c := v;
          case Err(_) =>  // the scan error is discarded and c keeps the backslash
        }
        HexStepAt(text, start, digits, c);
        EmitAt(text, buf, start, c, pos);
        buf := buf + [c];
      } else {
        var more := Next(text, pos, 2);
        n := n + more;
        pos := pos + |more|;
        var scanned := ScanUint8(n, 8);
        OctalStepAt(text, start, n, scanned);
        if scanned.Err? {
          StopAt(text, buf, start, scanned.error);
          return Err(scanned.error);
        }
        c := scanned.value;
        EmitAt(text, buf, start, c, pos);
        buf := buf + [c];
      }
    }
    assert text[pos..] == [] && buf + [] == buf;
    r := Ok(buf);
  }

  /** The step at a byte other than a backslash. */
  lemma PlainStep(s: seq<Byte>)
    requires s != [] && s[0] != Backslash
    ensures NextStep(s) == Emit(s[0], 1)
  {
  }

  /** The step at a named escape such as `\n`. */
  lemma NamedStepAt(text: seq<Byte>, start: nat, idx: int)
    requires start + 1 < |text| && text[start] == Backslash
    requires idx == IndexOf(EscapeLetters, text[start + 1]) && idx != -1
    ensures NextStep(text[start..]) == Emit(EscapedBytes[idx], 2)
  {
  }

  /** The step at a `\x` escape, in the reader's terms. */
  lemma HexStepAt(text: seq<Byte>, start: nat, digits: seq<Byte>, c: Byte)
    requires start + 1 < |text| && text[start] == Backslash
    requires IndexOf(EscapeLetters, text[start + 1]) == -1 && text[start + 1] == LetterX
    requires digits == Next(text, start + 2, 2)
    requires c == match ScanUint8(digits, 16) case Ok(v) => v case Err(_) => Backslash
    ensures NextStep(text[start..]) == Emit(c, 2 + |digits|)
  {
    NextShift(text, start, start + 2, 2);
  }

  /** The step at an octal escape, in the reader's terms. */
  lemma OctalStepAt(text: seq<Byte>, start: nat, digits: seq<Byte>, scanned: Result<Byte, EscapeError>)
    requires start + 1 < |text| && text[start] == Backslash
    requires IndexOf(EscapeLetters, text[start + 1]) == -1 && text[start + 1] != LetterX
    requires digits == [text[start + 1]] + Next(text, start + 2, 2)
    requires scanned == ScanUint8(digits, 8)
    ensures scanned.Err? ==> NextStep(text[start..]) == Stop(scanned.error)
    ensures scanned.Ok? ==> NextStep(text[start..]) == Emit(scanned.value, 1 + |digits|)
  {
    NextCons(text, start + 1, 2);
    NextShift(text, start, start + 1, 3);
  }

  /** Reading one byte and then k more is reading k + 1. */
  lemma NextCons(s: seq<Byte>, pos: nat, k: nat)
    requires pos < |s|
    ensures [s[pos]] + Next(s, pos + 1, k) == Next(s, pos, k + 1)
  {
  }

  /** Next on a suffix of the text is Next on the text at the shifted offset. */
  lemma NextShift(s: seq<Byte>, start: nat, pos: nat, k: nat)
    requires start <= pos <= |s|
    ensures Next(s[start..], pos - start, k) == Next(s, pos, k)
  {
  }

  // ---------------------------------------------------------------------
  // What the decoder does with each kind of input
  // ---------------------------------------------------------------------

  /** Bytes other than a backslash are copied through in order. */
  lemma {:induction false} UnescapePlainPrefix(a: seq<Byte>, rest: seq<Byte>)
    requires Backslash !in a
    ensures Unescape(a + rest) == Prepend(a, Unescape(rest))
  {
    if a == [] {
      assert a + rest == rest;
      PrependNothing(Unescape(rest));
    } else {
      var s := a + rest;
      assert s[0] == a[0] && s[1..] == a[1..] + rest;
      PlainStep(s);
      UnescapeStep(s, Emit(a[0], 1));
      UnescapePlainPrefix(a[1..], rest);
      ConsPrepend(a, Unescape(rest));
    }
  }

  /** A text without a backslash decodes to itself. */
  lemma UnescapeIdentity(s: seq<Byte>)
    requires Backslash !in s
    ensures Unescape(s) == Ok(s)
  {
    UnescapePlainPrefix(s, []);
    assert s + [] == s;
  }

  /**
   * A named escape `\\c` stands for the control byte at the index of c in
   * the letter table.
   */
  lemma UnescapeNamedEscape(c: Byte, rest: seq<Byte>)
    requires c in EscapeLetters
    ensures var k := IndexOf(EscapeLetters, c);
      0 <= k && EscapeLetters[k] == c &&
      Unescape([Backslash, c] + rest) == Cons(EscapedBytes[k], Unescape(rest))
  {
    var s := [Backslash, c] + rest;
    assert NextStep(s) == Emit(EscapedBytes[IndexOf(EscapeLetters, c)], 2);
    assert s[2..] == rest;
  }

  /** A window of digits, and nothing else, scans to its value when that fits a byte. */
  lemma ScanDigits(w: seq<Byte>, base: nat)
    requires w != [] && forall i :: 0 <= i < |w| ==> IsDigit(w[i], base)
    ensures ScanUint8(w, base) == if Number(w, base) <= 255 then Ok(Number(w, base)) else Err(SyntaxError)
  {
    assert SkipSpace(w) == Some(w);
    assert w[..TokenLength(w, base)] == w;
    assert Underscore !in w by {
      assert !IsDigit(Underscore, base);
    }
  }

  /** A window of one digit scans to its value. */
  lemma ScanOneDigit(h: Byte, base: nat)
    requires IsDigit(h, base) && base <= 16
    ensures ScanUint8([h], base) == Ok(DigitValue(h))
  {
    assert [h][..0] == [];
    assert Number([h], base) == DigitValue(h);
    ScanDigits([h], base);
  }

  /** The value of a two-digit hex window. */
  lemma NumberOfTwo(h: Byte, l: Byte, base: nat)
    requires IsDigit(h, base) && IsDigit(l, base)
    ensures Number([h, l], base) == DigitValue(h) * base + DigitValue(l)
  {
    assert [h, l][..1] == [h];
    assert [h][..0] == [];
    assert Number([h], base) == 0 * base + DigitValue(h) == DigitValue(h);
  }

  /** The value of a three-digit octal window. */
  lemma NumberOfThree(a: Byte, b: Byte, c: Byte, base: nat)
    requires IsDigit(a, base) && IsDigit(b, base) && IsDigit(c, base)
    ensures Number([a, b, c], base) == (DigitValue(a) * base + DigitValue(b)) * base + DigitValue(c)
  {
    assert [a, b, c][..2] == [a, b];
    NumberOfTwo(a, b, base);
  }

  /**
   * `\xHL` with two hex digits stands for the byte v = 16 * H + L. The
   * letter `x` and the value are parameters fixed by the precondition rather
   * than written into the statement: on the literal forms the verifier
   * unfolds the decoder far beyond what the proof needs.
   */
  lemma UnescapeHexEscape(x: Byte, h: Byte, l: Byte, v: Byte, rest: seq<Byte>)
    requires x == LetterX && IsDigit(h, 16) && IsDigit(l, 16) && v == 16 * DigitValue(h) + DigitValue(l)
    ensures Unescape([Backslash, x, h, l] + rest) == Cons(v, Unescape(rest))
  {
    var s := [Backslash, x, h, l] + rest;
    HexEscapeStep(x, h, l, v, rest);
    UnescapeStep(s, Emit(v, 4));
    assert s[4..] == rest;
  }

  lemma HexEscapeStep(x: Byte, h: Byte, l: Byte, v: Byte, rest: seq<Byte>)
    requires x == LetterX && IsDigit(h, 16) && IsDigit(l, 16) && v == 16 * DigitValue(h) + DigitValue(l)
    ensures NextStep([Backslash, x, h, l] + rest) == Emit(v, 4)
  {
    var s := [Backslash, x, h, l] + rest;
    NoLetterX(x);
    WindowOfFour(Backslash, x, h, l, rest);
    var w := Next(s, 2, 2);
    ScanHexPair(h, l);
    HexStep(s, ScanUint8(w, 16));
  }

  /** The step at `\x`, for a given outcome of the hex scan of its window. */
  lemma HexStep(s: seq<Byte>, scanned: Result<Byte, EscapeError>)
    requires |s| >= 2 && s[0] == Backslash && IndexOf(EscapeLetters, s[1]) == -1 && s[1] == LetterX
    requires scanned == ScanUint8(Next(s, 2, 2), 16)
    ensures NextStep(s) == Emit(if scanned.Ok? then scanned.value else Backslash, 2 + |Next(s, 2, 2)|)
  {
  }

  lemma NoLetterX(x: Byte)
    requires x == LetterX
    ensures IndexOf(EscapeLetters, x) == -1
  {
    assert x !in EscapeLetters;
  }

  lemma WindowOfFour(a: Byte, b: Byte, c: Byte, d: Byte, rest: seq<Byte>)
    ensures Next([a, b, c, d] + rest, 2, 2) == [c, d]
    ensures Next([a, b, c, d] + rest, 1, 3) == [b, c, d]
    ensures ([a, b, c, d] + rest)[4..] == rest
  {
  }

  lemma ScanHexPair(h: Byte, l: Byte)
    requires IsDigit(h, 16) && IsDigit(l, 16)
    ensures ScanUint8([h, l], 16) == Ok(16 * DigitValue(h) + DigitValue(l))
  {
    NumberOfTwo(h, l, 16);
    ScanDigits([h, l], 16);
  }

  /**
   * `\abc` with three octal digits stands for the byte 64a + 8b + c when that
   * is at most 255; a larger value overflows the byte and fails the decode.
   */
  lemma UnescapeOctalEscape(a: Byte, b: Byte, c: Byte, rest: seq<Byte>)
    requires IsDigit(a, 8) && IsDigit(b, 8) && IsDigit(c, 8)
    ensures var v := 64 * DigitValue(a) + 8 * DigitValue(b) + DigitValue(c);
      Unescape([Backslash, a, b, c] + rest) == if v <= 255 then Cons(v, Unescape(rest)) else Err(SyntaxError)
  {
    var s := [Backslash, a, b, c] + rest;
    var v := 64 * DigitValue(a) + 8 * DigitValue(b) + DigitValue(c);
    OctalEscapeStep(a, b, c, rest);
    UnescapeStep(s, NextStep(s));
    assert s[4..] == rest;
  }

  lemma OctalEscapeStep(a: Byte, b: Byte, c: Byte, rest: seq<Byte>)
    requires IsDigit(a, 8) && IsDigit(b, 8) && IsDigit(c, 8)
    ensures var v := 64 * DigitValue(a) + 8 * DigitValue(b) + DigitValue(c);
      NextStep([Backslash, a, b, c] + rest) == if v <= 255 then Emit(v, 4) else Stop(SyntaxError)
  {
    var s := [Backslash, a, b, c] + rest;
    assert a !in EscapeLetters && a != LetterX;
    assert Next(s, 1, 3) == [a, b, c];
    NumberOfThree(a, b, c, 8);
    ScanDigits([a, b, c], 8);
  }

  /**
   * A backslash followed by an ASCII byte that is no escape letter, no `x`,
   * no octal digit and no skippable space fails the decode: the octal scan
   * finds no number.
   */
  lemma UnescapeUnknownEscape(c: Byte, rest: seq<Byte>)
    requires c < 0x80 && c !in EscapeLetters && c != LetterX && !IsDigit(c, 8) && !IsSkippedSpace(c)
    ensures Unescape([Backslash, c] + rest) == Err(SyntaxError)
  {
    var s := [Backslash, c] + rest;
    var w := Next(s, 1, 3);
    assert w[0] == c;
    if c != Newline {
      assert SkipSpace(w) == Some(w);
    }
  }

  // ---------------------------------------------------------------------
  // Writing keys as text: the inverse of the decoder
  // ---------------------------------------------------------------------

  /** How a key is written: printable bytes as themselves and the rest as `\ddd`, or every byte as `\xHH`. */
  datatype EscapeStyle = OctalStyle | HexStyle

  /** The lower-case hex digit for 0..15. */
  function HexChar(d: nat): (c: Byte)
    requires d < 16
    ensures IsDigit(c, 16) && DigitValue(c) == d
  {
    if d < 10 then 0x30 + d else 0x61 + (d - 10)
  }

  /** The octal digit for 0..7. */
  function OctalChar(d: nat): (c: Byte)
    requires d < 8
    ensures IsDigit(c, 8) && DigitValue(c) == d
  {
    0x30 + d
  }

  function EscapeByte(b: Byte, style: EscapeStyle): (e: seq<Byte>)
    ensures 1 <= |e| <= 4
  {
    match style
    case HexStyle => [Backslash, LetterX, HexChar(b / 16), HexChar(b % 16)]
    case OctalStyle =>
      if b == Backslash then [Backslash, Backslash]
      else if 0x20 <= b < 0x7F then [b]
      else [Backslash, OctalChar(b / 64), OctalChar(b / 8 % 8), OctalChar(b % 8)]
  }

  /** The text that stands for `raw`. */
  function EscapeText(raw: seq<Byte>, style: EscapeStyle): (text: seq<Byte>)
    ensures |raw| <= |text| <= 4 * |raw|
  {
    if raw == [] then [] else EscapeByte(raw[0], style) + EscapeText(raw[1..], style)
  }

  /** Each escaped byte decodes to itself, whatever follows it. */
  lemma UnescapeEscapeByte(b: Byte, style: EscapeStyle, rest: seq<Byte>)
    ensures Unescape(EscapeByte(b, style) + rest) == Cons(b, Unescape(rest))
  {
    match style
    case HexStyle => UnescapeHexByte(b, rest);
    case OctalStyle =>
      if b == Backslash {
        UnescapeBackslashByte(b, rest);
      } else if 0x20 <= b < 0x7F {
        UnescapePrintableByte(b, rest);
      } else {
        UnescapeOctalByte(b, rest);
      }
  }

  lemma UnescapeHexByte(b: Byte, rest: seq<Byte>)
    ensures Unescape(EscapeByte(b, HexStyle) + rest) == Cons(b, Unescape(rest))
  {
    var h, l := HexChar(b / 16), HexChar(b % 16);
    assert EscapeByte(b, HexStyle) + rest == [Backslash, LetterX, h, l] + rest;
    assert 16 * DigitValue(h) + DigitValue(l) == b;
    UnescapeHexEscape(LetterX, h, l, b, rest);
  }

  lemma UnescapeBackslashByte(b: Byte, rest: seq<Byte>)
    requires b == Backslash
    ensures Unescape(EscapeByte(b, OctalStyle) + rest) == Cons(b, Unescape(rest))
  {
    assert EscapeByte(b, OctalStyle) == [Backslash, b];
    UnescapeNamedEscape(b, rest);
    BackslashEscapesItself(IndexOf(EscapeLetters, b));
  }

  /** The only letter entry `\` maps to the byte `\`. */
  lemma BackslashEscapesItself(k: nat)
    requires k < |EscapeLetters| && EscapeLetters[k] == Backslash
    ensures EscapedBytes[k] == Backslash
  {
  }

  lemma UnescapePrintableByte(b: Byte, rest: seq<Byte>)
    requires b != Backslash && 0x20 <= b < 0x7F
    ensures Unescape(EscapeByte(b, OctalStyle) + rest) == Cons(b, Unescape(rest))
  {
    UnescapePlainPrefix([b], rest);
  }

  lemma UnescapeOctalByte(b: Byte, rest: seq<Byte>)
    requires b != Backslash && !(0x20 <= b < 0x7F)
    ensures Unescape(EscapeByte(b, OctalStyle) + rest) == Cons(b, Unescape(rest))
  {
    var d2, d1, d0 := OctalChar(b / 64), OctalChar(b / 8 % 8), OctalChar(b % 8);
    OctalDigitsOfByte(b);
    assert 64 * DigitValue(d2) + 8 * DigitValue(d1) + DigitValue(d0) == b;
    assert EscapeByte(b, OctalStyle) == [Backslash, d2, d1, d0];
    UnescapeOctalTriple(d2, d1, d0, b, rest);
  }

  lemma UnescapeOctalTriple(d2: Byte, d1: Byte, d0: Byte, v: Byte, rest: seq<Byte>)
    requires IsDigit(d2, 8) && IsDigit(d1, 8) && IsDigit(d0, 8)
    requires 64 * DigitValue(d2) + 8 * DigitValue(d1) + DigitValue(d0) == v
    ensures Unescape([Backslash, d2, d1, d0] + rest) == Cons(v, Unescape(rest))
  {
    UnescapeOctalEscape(d2, d1, d0, rest);
  }

  /** The three octal digits of a byte give it back. */
  lemma OctalDigitsOfByte(b: Byte)
    ensures 64 * (b / 64) + 8 * (b / 8 % 8) + b % 8 == b
  {
    var q := b / 8;
    assert b == 8 * q + b % 8;
    assert q == 8 * (q / 8) + q % 8;
    DivModUnique(b, 64, q / 8, 8 * (q % 8) + b % 8);
  }

  /** An escaped text decodes to its bytes and leaves what follows it to be decoded on its own. */
  lemma {:induction false} UnescapeEscapeText(raw: seq<Byte>, style: EscapeStyle, rest: seq<Byte>)
    ensures Unescape(EscapeText(raw, style) + rest) == Prepend(raw, Unescape(rest))
  {
    if raw == [] {
      assert EscapeText(raw, style) + rest == rest;
      PrependNothing(Unescape(rest));
    } else {
      var tail := EscapeText(raw[1..], style) + rest;
      EscapeTextCons(raw, style, rest);
      UnescapeEscapeByte(raw[0], style, tail);
      UnescapeEscapeText(raw[1..], style, rest);
      ConsPrepend(raw, Unescape(rest));
    }
  }

  lemma EscapeTextCons(raw: seq<Byte>, style: EscapeStyle, rest: seq<Byte>)
    requires raw != []
    ensures EscapeText(raw, style) + rest == EscapeByte(raw[0], style) + (EscapeText(raw[1..], style) + rest)
  {
  }

  lemma ConsPrepend(p: seq<Byte>, r: Result<seq<Byte>, EscapeError>)
    requires p != []
    ensures Cons(p[0], Prepend(p[1..], r)) == Prepend(p, r)
  {
    if r.Ok? {
      assert [p[0]] + (p[1..] + r.value) == ([p[0]] + p[1..]) + r.value;
      assert [p[0]] + p[1..] == p;
    }
  }

  lemma PrependNothing(r: Result<seq<Byte>, EscapeError>)
    ensures Prepend([], r) == r
  {
    if r.Ok? {
      assert [] + r.value == r.value;
    }
  }

  /**
   * The decode ends with io.EOF only at a backslash whose window of up to
   * three following bytes holds nothing but skippable spaces: a final
   * backslash, or an octal scan that finds no digit before its window ends.
   */
  lemma {:induction false} UnescapeEndOfInput(s: seq<Byte>)
    ensures Unescape(s) == Err(EndOfInput) ==>
      exists k :: 0 <= k < |s| && s[k] == Backslash && forall i :: k < i < |s| && i <= k + 3 ==> IsSkippedSpace(s[i])
    decreases |s|
  {
    if s != [] && Unescape(s) == Err(EndOfInput) {
      var st := NextStep(s);
      UnescapeStep(s, st);
      if st.Emit? {
        var tail := s[st.used..];
        assert Unescape(tail) == Err(EndOfInput);
        UnescapeEndOfInput(tail);
        var k :| 0 <= k < |tail| && tail[k] == Backslash && forall i :: k < i < |tail| && i <= k + 3 ==> IsSkippedSpace(tail[i]);
        ShiftWindow(s, st.used, k);
      } else {
        NextStepEndOfInput(s);
        ShiftWindow(s, 0, 0);
      }
    }
  }

  /** A window found in a suffix is a window of the whole text. */
  lemma ShiftWindow(s: seq<Byte>, d: nat, k: nat)
    requires d + k < |s| && s[d + k] == Backslash
    requires forall i :: k < i < |s| - d && i <= k + 3 ==> IsSkippedSpace(s[d..][i])
    ensures exists j :: 0 <= j < |s| && s[j] == Backslash && forall i :: j < i < |s| && i <= j + 3 ==> IsSkippedSpace(s[i])
  {
    forall i | d + k < i < |s| && i <= d + k + 3
      ensures IsSkippedSpace(s[i])
    {
      assert s[i] == s[d..][i - d];
    }
  }

  /**
   * A backslash before one to three skippable spaces that fill its window
   * ends the decode with io.EOF: the octal scan skips them and meets the end.
   */
  lemma UnescapeBlankOctalWindow(sp: seq<Byte>, rest: seq<Byte>)
    requires 1 <= |sp| <= 3 && forall i :: 0 <= i < |sp| ==> IsSkippedSpace(sp[i])
    requires |sp| < 3 ==> rest == []
    ensures Unescape([Backslash] + sp + rest) == Err(EndOfInput)
  {
    var s := [Backslash] + sp + rest;
    forall i | 1 <= i < |s| && i < 4
      ensures IsSkippedSpace(s[i])
    {
      assert s[i] == sp[i - 1];
    }
    NextStepEndOfInput(s);
    UnescapeStep(s, Stop(EndOfInput));
  }

  /**
   * `\x` followed by a byte that is neither a hex digit nor a skippable
   * space: the hex scan fails, its error is discarded, and the backslash is
   * emitted in place of the two-byte window.
   */
  lemma UnescapeHexFallback(g: Byte, h: Byte, rest: seq<Byte>)
    requires !IsDigit(g, 16) && !IsSkippedSpace(g)
    ensures Unescape([Backslash, LetterX, g, h] + rest) == Cons(Backslash, Unescape(rest))
  {
    HexFallbackAt(LetterX, g, h, rest);
  }

  lemma HexFallbackAt(x: Byte, g: Byte, h: Byte, rest: seq<Byte>)
    requires x == LetterX && !IsDigit(g, 16) && !IsSkippedSpace(g)
    ensures Unescape([Backslash, x, g, h] + rest) == Cons(Backslash, Unescape(rest))
  {
    var s := [Backslash, x, g, h] + rest;
    NoLetterX(x);
    WindowOfFour(Backslash, x, g, h, rest);
    ScanFailsAt(g, h);
    HexStep(s, ScanUint8([g, h], 16));
    UnescapeStep(s, Emit(Backslash, 4));
  }

  /** A window whose first byte is neither a digit nor a skippable space does not scan. */
  lemma ScanFailsAt(g: Byte, h: Byte)
    requires !IsDigit(g, 16) && !IsSkippedSpace(g)
    ensures ScanUint8([g, h], 16).Err?
  {
    var w := [g, h];
    if g != Newline {
      assert SkipSpace(w) == Some(w);
      assert TokenLength(w, 16) == 0 || w[0] == Underscore;
    }
  }

  /**
   * A single hex digit after `\x` at the end of the text is scanned on its
   * own and stands for its value v (parameters as in UnescapeHexEscape).
   */
  lemma UnescapeHexShort(x: Byte, h: Byte, v: Byte)
    requires x == LetterX && IsDigit(h, 16) && v == DigitValue(h)
    ensures Unescape([Backslash, x, h]) == Ok([v])
  {
    var s := [Backslash, x, h];
    HexShortStep(x, h, v);
    UnescapeStep(s, Emit(v, 3));
    assert s[3..] == [];
    assert Unescape(s[3..]) == Ok([]);
    assert [v] + [] == [v];
  }

  lemma HexShortStep(x: Byte, h: Byte, v: Byte)
    requires x == LetterX && IsDigit(h, 16) && v == DigitValue(h)
    ensures NextStep([Backslash, x, h]) == Emit(v, 3)
  {
    var s := [Backslash, x, h];
    NoLetterX(x);
    var w := Next(s, 2, 2);
    WindowOfThree(Backslash, x, h);
    ScanOneDigit(h, 16);
    HexStep(s, ScanUint8(w, 16));
  }

  lemma WindowOfThree(a: Byte, b: Byte, c: Byte)
    ensures Next([a, b, c], 2, 2) == [c]
  {
  }

  /** Round trip: decoding the escaped text of any bytes gives those bytes. */
  lemma UnescapeRoundTrip(raw: seq<Byte>, style: EscapeStyle)
    ensures Unescape(EscapeText(raw, style)) == Ok(raw)
  {
    UnescapeEscapeText(raw, style, []);
    assert EscapeText(raw, style) + [] == EscapeText(raw, style);
    assert raw + [] == raw;
  }

  /** A backslash left at the end of a text, after complete escapes, fails the decode (io.EOF). */
  lemma UnescapeTrailingBackslash(raw: seq<Byte>, style: EscapeStyle)
    ensures Unescape(EscapeText(raw, style) + [Backslash]) == Err(EndOfInput)
  {
    UnescapeEscapeText(raw, style, [Backslash]);
  }
}
