/** Text building blocks shared by the two dump reports: how the C++ stream
    prints numbers and flags, the padding macro, the two path helpers the
    reports call, the `"key" : value` member lines, and small readers that
    recover numbers and strings from the rendered text. */
module TextFormat {

  datatype Option<T> = None | Some(value: T) {
    predicate IsFailure() { None? }
    function PropagateFailure<U>(): Option<U> requires None? { None }
    function Extract(): T requires Some? { value }
  }

  /** `DWORD`: an unsigned 32-bit value. */
  type U32 = n: nat | n < 0x1_0000_0000
  /** `ULONGLONG`, and `size_t` on a 64-bit build. */
  type U64 = n: nat | n < 0x1_0000_0000_0000_0000

  // ---------------------------------------------------------------------------
  // Numbers as `operator<<` prints them under std::dec / std::hex

  predicate ValidBase(base: nat) { 2 <= base <= 16 }

  /** The value of a digit character, lower-case letters for 10..15. */
  function DigitValue(c: char): (v: Option<nat>)
    ensures v.Some? ==> v.value < 16
  {
    if '0' <= c <= '9' then Some(c as int - '0' as int)
    else if 'a' <= c <= 'f' then Some(c as int - 'a' as int + 10)
    else None
  }

  /** The character printed for digit `d`; std::hex prints lower case by default. */
  function DigitChar(d: nat): (c: char)
    requires d < 16
    ensures DigitValue(c) == Some(d)
  {
    if d < 10 then ('0' as int + d) as char else ('a' as int + d - 10) as char
  }

  predicate IsDigitOf(c: char, base: nat) {
    DigitValue(c).Some? && DigitValue(c).value < base
  }

  /** `n` in `base`, most significant digit first, with no prefix and no leading zeros. */
  function Digits(n: nat, base: nat): (s: string)
    requires ValidBase(base)
    ensures |s| >= 1
    ensures forall i :: 0 <= i < |s| ==> IsDigitOf(s[i], base)
    ensures n == 0 ==> s == "0"
    ensures n > 0 ==> s[0] != '0'
    decreases n
  {
    if n < base then [DigitChar(n)]
    else
      DivisionFacts(n, base);
      Digits(n / base, base) + [DigitChar(n % base)]
  }

  /** Facts about one step of printing a digit that the solver does not find alone. */
  lemma DivisionFacts(n: nat, base: nat)
    requires ValidBase(base) && n >= base
    ensures 1 <= n / base < n
    ensures n % base < base
    ensures n / base * base + n % base == n
  {
    var q, r := n / base, n % base;
    assert q * base + r == n;
    assert q * base >= q * 2 by {
      assert q >= 0 && base >= 2;
    }
  }

  /** `std::hex << n`: lower-case hexadecimal without a `0x` prefix. */
  function Hex(n: nat): string { Digits(n, 16) }

  /** `std::dec << n`. */
  function Dec(n: nat): string { Digits(n, 10) }

  /** A `bool` inserted without std::boolalpha prints as the integer 0 or 1. */
  function BoolText(b: bool): string { Dec(if b then 1 else 0) }

  lemma BoolTextDigit(b: bool)
    ensures BoolText(b) == if b then "1" else "0"
  {
    assert Digits(1, 10) == [DigitChar(1)];
  }

  /** Reads a whole string as a number in `base`; None when it is empty or holds a non-digit. */
  function ParseDigits(s: string, base: nat): (r: Option<nat>)
    requires ValidBase(base)
    ensures r.Some? <==> |s| > 0 && forall i :: 0 <= i < |s| ==> IsDigitOf(s[i], base)
    decreases |s|
  {
    if |s| == 0 then None
    else
      var d := DigitValue(s[|s| - 1]);
      if d.None? || d.value >= base then None
      else if |s| == 1 then Some(d.value)
      else match ParseDigits(s[..|s| - 1], base)
        case None => None
        case Some(high) => Some(high * base + d.value)
  }

  /** Parsing the printed digits back gives the number that was printed. */
  lemma {:induction false} DigitsRoundTrip(n: nat, base: nat)
    requires ValidBase(base)
    ensures ParseDigits(Digits(n, base), base) == Some(n)
    decreases n
  {
    if n >= base {
      var s := Digits(n, base);
      DivisionFacts(n, base);
      DigitsRoundTrip(n / base, base);
      assert s[..|s| - 1] == Digits(n / base, base);
    }
  }

  /** Printing is injective: two numbers print the same only when they are equal. */
  lemma DigitsInjective(m: nat, n: nat, base: nat)
    requires ValidBase(base)
    requires Digits(m, base) == Digits(n, base)
    ensures m == n
  {
    DigitsRoundTrip(m, base);
    DigitsRoundTrip(n, base);
  }

  // ---------------------------------------------------------------------------
  // Helpers from headers that are not part of this model (assumed behaviour)

  /** Assumed model of the OUT_PADDED macro's indentation: `level` spaces. */
  function Pad(level: nat): (s: string)
    ensures |s| == level
    ensures forall i :: 0 <= i < |s| ==> s[i] == ' '
  {
    seq(level, _ => ' ')
  }

  predicate IsPathSeparator(c: char) { c == '/' || c == '\\' }

  /** Assumed model of peconv::get_file_name: what follows the last `/` or `\`
      of the path, or the whole path when it has no separator. */
  function FileName(path: string): string
    decreases |path|
  {
    if |path| == 0 || IsPathSeparator(path[|path| - 1]) then ""
    else FileName(path[..|path| - 1]) + [path[|path| - 1]]
  }

  /** The file name is a suffix of the path free of separators, and the path
      is either exactly that name or has a separator just before it. */
  lemma {:induction false} FileNameIsLastComponent(path: string)
    ensures |FileName(path)| <= |path| && FileName(path) == path[|path| - |FileName(path)|..]
    ensures forall i :: 0 <= i < |FileName(path)| ==> !IsPathSeparator(FileName(path)[i])
    ensures |FileName(path)| < |path| ==> IsPathSeparator(path[|path| - |FileName(path)| - 1])
    decreases |path|
  {
    if |path| > 0 && !IsPathSeparator(path[|path| - 1]) {
      var init, c := path[..|path| - 1], path[|path| - 1];
      FileNameIsLastComponent(init);
      var n := FileName(init);
      var k := |init| - |n|;
      assert path == init + [c];
      assert FileName(path) == n + [c];
      assert path[k..] == init[k..] + [c];
      forall i | 0 <= i < |n| + 1 ensures !IsPathSeparator((n + [c])[i]) {
        if i < |n| {
          assert (n + [c])[i] == n[i];
        }
      }
      if k > 0 {
        assert path[k - 1] == init[k - 1];
      }
    }
  }

  /** Assumed model of escape_path_separators: every backslash is doubled so
      that the path can stand inside a JSON string. */
  function EscapePathSeparators(path: string): (text: string)
    ensures |text| >= |path|
    ensures '"' !in path ==> '"' !in text
    decreases |path|
  {
    if |path| == 0 then ""
    else (if path[0] == '\\' then "\\\\" else [path[0]]) + EscapePathSeparators(path[1..])
  }

  /** What a JSON reader makes of an escaped path: each `\\` pair becomes one `\`. */
  function UnescapePathSeparators(text: string): string
    decreases |text|
  {
    if |text| == 0 then ""
    else if |text| >= 2 && text[0] == '\\' && text[1] == '\\' then "\\" + UnescapePathSeparators(text[2..])
    else [text[0]] + UnescapePathSeparators(text[1..])
  }

  lemma {:induction false} EscapeRoundTrip(path: string)
    ensures UnescapePathSeparators(EscapePathSeparators(path)) == path
    decreases |path|
  {
    if |path| > 0 {
      var rest := EscapePathSeparators(path[1..]);
      EscapeRoundTrip(path[1..]);
      if path[0] == '\\' {
        assert EscapePathSeparators(path) == "\\\\" + rest;
        assert ("\\\\" + rest)[2..] == rest;
      } else {
        assert EscapePathSeparators(path) == [path[0]] + rest;
        assert ([path[0]] + rest)[1..] == rest;
      }
      assert path == [path[0]] + path[1..];
    }
  }

  // ---------------------------------------------------------------------------
  // Object members as the reports write them

  lemma ConcatAssoc(a: string, b: string, c: string)
    ensures a + b + c == a + (b + c)
  {
  }

  /** One member of a report object; `value` is already rendered (quoted string or number). */
  datatype Member = Member(key: string, value: string)

  function Quote(s: string): string { "\"" + s + "\"" }

  /** A member's line: the padded, quoted key, a ` : ` and the value. */
  function Line(level: nat, m: Member): string {
    Pad(level) + "\"" + m.key + "\" : " + m.value
  }

  /** Members each followed by `,\n`, the way the reports write every member they
      do not treat as the last one. */
  function Fields(level: nat, ms: seq<Member>): string
    decreases |ms|
  {
    if ms == [] then "" else Fields(level, ms[..|ms| - 1]) + Line(level, ms[|ms| - 1]) + ",\n"
  }

  lemma FieldsSnoc(level: nat, ms: seq<Member>, m: Member)
    ensures Fields(level, ms + [m]) == Fields(level, ms) + Line(level, m) + ",\n"
  {
    assert (ms + [m])[..|ms|] == ms;
  }

  /** The member lines of two lists one after the other are the member lines of
      the joined list. */
  lemma {:induction false} FieldsConcat(level: nat, a: seq<Member>, b: seq<Member>)
    ensures Fields(level, a + b) == Fields(level, a) + Fields(level, b)
    decreases |b|
  {
    if b == [] {
      assert a + b == a;
    } else {
      var init, m := b[..|b| - 1], b[|b| - 1];
      var line := Line(level, m) + ",\n";
      calc {
        Fields(level, a + b);
        { assert a + b == (a + init) + [m]; FieldsSnoc(level, a + init, m); }
        Fields(level, a + init) + line;
        { FieldsConcat(level, a, init); }
        Fields(level, a) + Fields(level, init) + line;
        { ConcatAssoc(Fields(level, a), Fields(level, init), line); }
        Fields(level, a) + (Fields(level, init) + line);
        { assert b == init + [m]; FieldsSnoc(level, init, m); }
        Fields(level, a) + Fields(level, b);
      }
    }
  }

  /** The text of a member that is not the last of its object and is written
      only under a condition: its line and a `,\n` when `present`, nothing otherwise. */
  function OptionalField(level: nat, present: bool, m: Member): string {
    if present then Line(level, m) + ",\n" else ""
  }

  /** `[m]` when `present`, nothing otherwise: a member written under a condition. */
  function When(present: bool, m: Member): seq<Member> {
    if present then [m] else []
  }

  lemma FieldsWhen(level: nat, ms: seq<Member>, present: bool, m: Member)
    ensures Fields(level, ms + When(present, m))
         == Fields(level, ms) + if present then Line(level, m) + ",\n" else ""
  {
    if present {
      FieldsSnoc(level, ms, m);
    } else {
      assert ms + [] == ms;
    }
  }

  /** A member the writer emits only when `present` holds. */
  datatype Slot = Slot(present: bool, member: Member)

  /** The members of `slots` that are written, in order. */
  function Emitted(slots: seq<Slot>): seq<Member>
    decreases |slots|
  {
    if slots == [] then []
    else Emitted(slots[..|slots| - 1]) + When(slots[|slots| - 1].present, slots[|slots| - 1].member)
  }

  /** A member is written exactly when some slot holding it is present. */
  lemma {:induction false} EmittedMembers(slots: seq<Slot>, m: Member)
    ensures m in Emitted(slots) <==> exists i :: 0 <= i < |slots| && slots[i].present && slots[i].member == m
    decreases |slots|
  {
    if slots != [] {
      var init, s := slots[..|slots| - 1], slots[|slots| - 1];
      EmittedMembers(init, m);
      assert forall i :: 0 <= i < |init| ==> init[i] == slots[i];
      if m in Emitted(slots) && m !in Emitted(init) {
        assert s.present && s.member == m;
        assert slots[|slots| - 1] == s;
      }
    }
  }

  /** The stream `outs` after the writer has gone through the first `k` slots one
      by one, writing each present member followed by `,\n`. */
  function Written(outs: string, level: nat, slots: seq<Slot>, k: nat): string
    requires k <= |slots|
    decreases k
  {
    if k == 0 then outs
    else Written(outs, level, slots, k - 1) + OptionalField(level, slots[k - 1].present, slots[k - 1].member)
  }

  /** Going through the slots one by one writes exactly the present members,
      in order, as member lines. */
  lemma {:induction false} WrittenIsFields(outs: string, level: nat, slots: seq<Slot>, k: nat)
    requires k <= |slots|
    ensures Written(outs, level, slots, k) == outs + Fields(level, Emitted(slots[..k]))
    decreases k
  {
    if k == 0 {
      assert slots[..0] == [];
    } else {
      var init, s := slots[..k - 1], slots[k - 1];
      assert slots[..k][..k - 1] == init;
      assert slots[..k][k - 1] == s;
      assert Emitted(slots[..k]) == Emitted(init) + When(s.present, s.member);
      WrittenIsFields(outs, level, slots, k - 1);
      FieldsWhen(level, Emitted(init), s.present, s.member);
      ConcatAssoc(outs, Fields(level, Emitted(init)), OptionalField(level, s.present, s.member));
    }
  }

  /** Parts separated by `sep` (the separator stands only between two parts). */
  function Join(parts: seq<string>, sep: string): string
    decreases |parts|
  {
    if parts == [] then "" else if |parts| == 1 then parts[0] else parts[0] + sep + Join(parts[1..], sep)
  }

  lemma {:induction false} JoinSnoc(parts: seq<string>, p: string, sep: string)
    ensures Join(parts + [p], sep) == if parts == [] then p else Join(parts, sep) + sep + p
    decreases |parts|
  {
    if |parts| == 1 {
      assert parts + [p] == [parts[0], p];
      assert [parts[0], p][1..] == [p];
    } else if |parts| > 1 {
      assert (parts + [p])[1..] == parts[1..] + [p];
      JoinSnoc(parts[1..], p, sep);
    }
  }

  // ---------------------------------------------------------------------------
  // Readers: recovering values from rendered text

  /** The rest of `text` after the literal `lit`, if `text` starts with it. */
  function Skip(text: string, lit: string): Option<string> {
    if |lit| <= |text| && text[..|lit|] == lit then Some(text[|lit|..]) else None
  }

  lemma SkipLiteral(lit: string, tail: string)
    ensures Skip(lit + tail, lit) == Some(tail)
  {
    assert (lit + tail)[..|lit|] == lit;
    assert (lit + tail)[|lit|..] == tail;
  }

  /** Length of the longest prefix of `s` made of digits of `base`. */
  function DigitSpan(s: string, base: nat): (n: nat)
    requires ValidBase(base)
    ensures n <= |s|
    ensures forall i :: 0 <= i < n ==> IsDigitOf(s[i], base)
    ensures n < |s| ==> !IsDigitOf(s[n], base)
    decreases |s|
  {
    if |s| == 0 || !IsDigitOf(s[0], base) then 0 else 1 + DigitSpan(s[1..], base)
  }

  /** The number in `base` at the head of `text`, and the text after its digits. */
  function ReadNumber(text: string, base: nat): Option<(nat, string)>
    requires ValidBase(base)
  {
    var n := DigitSpan(text, base);
    match ParseDigits(text[..n], base)
    case None => None
    case Some(v) => Some((v, text[n..]))
  }

  lemma ReadNumberRoundTrip(n: nat, base: nat, tail: string)
    requires ValidBase(base)
    requires |tail| == 0 || !IsDigitOf(tail[0], base)
    ensures ReadNumber(Digits(n, base) + tail, base) == Some((n, tail))
  {
    var d := Digits(n, base);
    var text := d + tail;
    assert DigitSpan(text, base) == |d| by {
      assert forall i :: 0 <= i < |d| ==> text[i] == d[i];
      assert |d| < |text| ==> text[|d|] == tail[0];
    }
    assert text[..|d|] == d;
    assert text[|d|..] == tail;
    DigitsRoundTrip(n, base);
  }

  /** Length of the longest prefix of `s` without a double quote. */
  function QuoteSpan(s: string): (n: nat)
    ensures n <= |s|
    ensures forall i :: 0 <= i < n ==> s[i] != '"'
    ensures n < |s| ==> s[n] == '"'
    decreases |s|
  {
    if |s| == 0 || s[0] == '"' then 0 else 1 + QuoteSpan(s[1..])
  }

  /** The characters before the next `"` of `text`, and the text from that quote on. */
  function ReadUntilQuote(text: string): (string, string) {
    var n := QuoteSpan(text);
    (text[..n], text[n..])
  }

  lemma ReadUntilQuoteRoundTrip(s: string, tail: string)
    requires '"' !in s
    requires |tail| > 0 && tail[0] == '"'
    ensures ReadUntilQuote(s + tail) == (s, tail)
  {
    var text := s + tail;
    assert QuoteSpan(text) == |s| by {
      assert forall i :: 0 <= i < |s| ==> text[i] == s[i];
      assert text[|s|] == tail[0];
    }
    assert text[..|s|] == s;
    assert text[|s|..] == tail;
  }
}
