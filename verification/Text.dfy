/**
 The parts of Go's `strings` and `strconv` packages that the agent's decisions depend on.
 */
module Text {
  import opened Wrappers

  const INT64_LIMIT: int := 0x8000_0000_0000_0000

  // ---------- strings.TrimSpace and strings.ToLower ----------

  /** Unicode White_Space, as `unicode.IsSpace` decides it. */
  predicate IsSpace(c: char) {
    || '\t' <= c <= '\r'
    || c == ' '
    || c == '\U{85}'
    || c == '\U{A0}'
    || c == '\U{1680}'
    || '\U{2000}' <= c <= '\U{200A}'
    || c == '\U{2028}'
    || c == '\U{2029}'
    || c == '\U{202F}'
    || c == '\U{205F}'
    || c == '\U{3000}'
  }

  function TrimLeft(s: string): (r: string)
    ensures r != "" ==> !IsSpace(r[0])
    ensures |r| <= |s| && r == s[|s| - |r|..]
    ensures s != "" && !IsSpace(s[0]) ==> r == s
  {
    if s == "" || !IsSpace(s[0]) then s else TrimLeft(s[1..])
  }

  function TrimRight(s: string): (r: string)
    ensures r != "" ==> !IsSpace(r[|r| - 1])
    ensures |r| <= |s| && r == s[..|r|]
    ensures s != "" && !IsSpace(s[|s| - 1]) ==> r == s
  {
    if s == "" || !IsSpace(s[|s| - 1]) then s else TrimRight(s[..|s| - 1])
  }

  function TrimSpace(s: string): string {
    TrimRight(TrimLeft(s))
  }

  lemma TrimSpaceIdempotent(s: string)
    ensures TrimSpace(TrimSpace(s)) == TrimSpace(s)
  {
    var t := TrimSpace(s);
    if t != "" {
      assert t[0] == TrimLeft(s)[0];
      assert TrimLeft(t) == t;
    }
  }

  /** The text `t` is in `s` from `k` on, with nothing but white space around it. */
  ghost predicate SpaceAround(s: string, t: string, k: int) {
    && 0 <= k && k + |t| <= |s| && t == s[k..k + |t|]
    && (forall i | 0 <= i < k :: IsSpace(s[i])) && (forall i | k + |t| <= i < |s| :: IsSpace(s[i]))
  }

  /** Trimming takes all white space off both ends and nothing else. */
  lemma TrimSpaceExactly(s: string)
    ensures var t := TrimSpace(s);
            && (t != "" ==> !IsSpace(t[0]) && !IsSpace(t[|t| - 1]))
            && exists k :: SpaceAround(s, t, k)
  {
    hide IsSpace;
    var left := TrimLeft(s);
    var k, t := |s| - |left|, TrimRight(left);
    TrimLeftTakesSpace(s);
    TrimRightTakesSpace(left);
    hide TrimLeft, TrimRight;
    MiddleOf(s, k, |t|);
    assert SpaceAround(s, t, k);
    if t != "" {
      assert t[0] == left[0];
    }
  }

  lemma MiddleOf(s: string, k: nat, n: nat)
    requires k + n <= |s|
    ensures s[k..][..n] == s[k..k + n]
    ensures forall i | k + n <= i < |s| :: s[i] == s[k..][i - k]
  {
  }

  lemma {:induction false} TrimLeftTakesSpace(s: string)
    ensures forall i | 0 <= i < |s| - |TrimLeft(s)| :: IsSpace(s[i])
  {
    hide IsSpace;
    if s != "" && IsSpace(s[0]) {
      TrimLeftTakesSpace(s[1..]);
      forall i | 1 <= i < |s| ensures s[i] == s[1..][i - 1] {}
    }
  }

  lemma {:induction false} TrimRightTakesSpace(s: string)
    ensures forall i | |TrimRight(s)| <= i < |s| :: IsSpace(s[i])
  {
    hide IsSpace;
    if s != "" && IsSpace(s[|s| - 1]) {
      TrimRightTakesSpace(s[..|s| - 1]);
    }
  }

  /** Among ASCII characters the white space is the blank and the five controls from tab to carriage return. */
  lemma AsciiSpaces(c: char)
    requires c as int < 0x80
    ensures IsSpace(c) <==> c as int in {9, 10, 11, 12, 13, 32}
  {
  }

  /**
   `unicode.ToLower`, exact on every character whose lower-case form is ASCII: the two
   non-ASCII ones are the Kelvin sign and the dotted capital I. Other characters stay
   outside ASCII, and the agent only compares lowered text with ASCII words.
   */
  function LowerChar(c: char): char {
    if 'A' <= c <= 'Z' then (c as int + 32) as char
    else if c == '\U{212A}' then 'k'
    else if c == '\U{130}' then 'i'
    else c
  }

  function ToLower(s: string): string {
    seq(|s|, i requires 0 <= i < |s| => LowerChar(s[i]))
  }

  /** Lowering works character by character and changes no ASCII character but the capital letters. */
  lemma ToLowerExactly(s: string, i: nat)
    requires i < |s|
    ensures |ToLower(s)| == |s|
    ensures s[i] as int < 0x80 ==>
              ToLower(s)[i] as int == if 65 <= s[i] as int <= 90 then s[i] as int + 32 else s[i] as int
    ensures s[i] as int >= 0x80 && ToLower(s)[i] as int < 0x80 ==>
              (s[i] as int, ToLower(s)[i]) in {(0x212A, 'k'), (0x130, 'i')}
  {
  }

  // ---------- strconv.FormatInt and strconv.ParseInt, base 10 ----------

  predicate IsDigit(c: char) {
    '0' <= c <= '9'
  }

  predicate AllDigits(s: string) {
    forall i | 0 <= i < |s| :: IsDigit(s[i])
  }

  function DigitValue(c: char): (d: nat)
    requires IsDigit(c)
    ensures d < 10
  {
    c as int - '0' as int
  }

  function DigitChar(d: nat): (c: char)
    requires d < 10
    ensures IsDigit(c) && DigitValue(c) == d
  {
    (d + '0' as int) as char
  }

  function DecimalValue(s: string): nat
    requires AllDigits(s)
  {
    if s == "" then 0 else DecimalValue(s[..|s| - 1]) * 10 + DigitValue(s[|s| - 1])
  }

  function FormatNat(n: nat): (s: string)
    ensures s != "" && AllDigits(s)
  {
    if n < 10 then [DigitChar(n)] else FormatNat(n / 10) + [DigitChar(n % 10)]
  }

  /** `strconv.ParseInt(s, 10, 64)`: an optional sign, at least one digit, a value that fits. */
  function ParseInt64(s: string): Option<int> {
    if s == "" then None
    else
      var signed := s[0] == '+' || s[0] == '-';
      var digits := if signed then s[1..] else s;
      if digits == "" || !AllDigits(digits) then None
      else
        var value: int := if s[0] == '-' then 0 - DecimalValue(digits) else DecimalValue(digits);
        if -INT64_LIMIT <= value < INT64_LIMIT then Some(value) else None
  }

  lemma {:induction false} DecimalOfFormat(n: nat)
    ensures DecimalValue(FormatNat(n)) == n
  {
    var s := FormatNat(n);
    if n < 10 {
      assert s[..|s| - 1] == "";
    } else {
      assert s[..|s| - 1] == FormatNat(n / 10);
      DecimalOfFormat(n / 10);
    }
  }

  /** Decimal digits count in tens, with the first digit heaviest. */
  lemma {:induction false} DigitsCountInTens(a: string, c: char)
    requires AllDigits(a) && '0' <= c <= '9'
    ensures AllDigits(a + [c]) && DecimalValue(a + [c]) == 10 * DecimalValue(a) + (c as int - 48)
    ensures DecimalValue("") == 0
  {
    assert (a + [c])[..|a|] == a;
  }

  /** The text of a number has its digits, and no leading zero. */
  lemma {:induction false} FormatIsCanonical(n: nat)
    ensures AllDigits(FormatNat(n)) && DecimalValue(FormatNat(n)) == n
    ensures FormatNat(n)[0] == '0' ==> FormatNat(n) == "0"
    ensures n >= 1 ==> FormatNat(n)[0] != '0'
  {
    DecimalOfFormat(n);
    if n >= 10 {
      FormatIsCanonical(n / 10);
    }
  }

  /** A positive number is read from its digits, a plus sign before them or not, and from nothing else. */
  lemma ParsePositive(s: string, n: int)
    requires 1 <= n < INT64_LIMIT
    ensures ParseInt64(s) == Some(n) <==>
              exists digits: string ::
                digits != "" && AllDigits(digits) && DecimalValue(digits) == n && (s == digits || s == "+" + digits)
  {
    if ParseInt64(s) == Some(n) {
      var digits := if s[0] == '+' then s[1..] else s;
      assert s[0] == '+' ==> s == "+" + digits;
      assert digits != "" && AllDigits(digits) && DecimalValue(digits) == n;
    }
    forall digits: string | digits != "" && AllDigits(digits) && DecimalValue(digits) == n
                            && (s == digits || s == "+" + digits)
      ensures ParseInt64(s) == Some(n)
    {
      assert IsDigit(digits[0]);
      if s == "+" + digits {
        assert s[1..] == digits;
      }
    }
  }

  lemma ParseOfFormat(n: nat)
    ensures ParseInt64(FormatNat(n)) == if n < INT64_LIMIT then Some(n) else None
  {
    DecimalOfFormat(n);
    assert IsDigit(FormatNat(n)[0]);
  }

  // ---------- strings.Split on ">>>" ----------

  const SEPARATOR := ">>>"

  /** The text has the separator at position `i`. */
  predicate SeparatorAt(s: string, i: nat) {
    i + 3 <= |s| && s[i..i + 3] == SEPARATOR
  }

  /** The first position at or after `k` holding the separator. */
  function FindSeparator(s: string, k: nat): (r: Option<nat>)
    requires k <= |s|
    ensures r.Some? ==> k <= r.value && SeparatorAt(s, r.value)
    ensures forall j | k <= j < (if r.Some? then r.value else |s|) :: !SeparatorAt(s, j)
    decreases |s| - k
  {
    if k == |s| then None
    else if SeparatorAt(s, k) then Some(k)
    else FindSeparator(s, k + 1)
  }

  function Split(s: string): (parts: seq<string>)
    ensures |parts| > 0
    decreases |s|
  {
    match FindSeparator(s, 0)
    case None => [s]
    case Some(i) => [s[..i]] + Split(s[i + 3..])
  }

  function Join(parts: seq<string>): string
    requires |parts| > 0
  {
    if |parts| == 1 then parts[0] else parts[0] + SEPARATOR + Join(parts[1..])
  }

  lemma JoinOfFour(a: string, b: string, c: string, d: string)
    ensures Join([a, b, c, d]) == a + SEPARATOR + b + SEPARATOR + c + SEPARATOR + d
  {
    assert [a, b, c, d][1..] == [b, c, d] && [b, c, d][1..] == [c, d] && [c, d][1..] == [d];
    assert Join([c, d]) == c + SEPARATOR + Join([d]);
    assert Join([b, c, d]) == b + SEPARATOR + Join([c, d]);
  }

  /** Joining what Split returned gives the text back, whatever the text. */
  lemma {:induction false} JoinOfSplit(s: string)
    ensures Join(Split(s)) == s
    decreases |s|
  {
    match FindSeparator(s, 0)
    case None =>
    case Some(i) =>
      JoinOfSplit(s[i + 3..]);
      assert Split(s)[1..] == Split(s[i + 3..]);
      assert s == s[..i] + s[i..i + 3] + s[i + 3..];
  }

  lemma NoSeparatorWithin(head: string, tail: string, j: nat)
    requires '>' !in head
    requires j < |head|
    ensures !SeparatorAt(head + tail, j)
  {
    var s := head + tail;
    assert s[j] == head[j] && head[j] in head;
    assert j + 3 <= |s| ==> s[j..j + 3][0] == s[j];
  }

  lemma SplitAtHead(head: string, tail: string)
    requires '>' !in head
    ensures Split(head) == [head]
    ensures Split(head + SEPARATOR + tail) == [head] + Split(tail)
  {
    var s := head + SEPARATOR + tail;
    assert head + "" == head && head + (SEPARATOR + tail) == s;
    forall j | 0 <= j < |head| ensures !SeparatorAt(head, j) && !SeparatorAt(s, j) {
      NoSeparatorWithin(head, "", j);
      NoSeparatorWithin(head, SEPARATOR + tail, j);
    }
    assert s[|head|..|head| + 3] == SEPARATOR;
    assert SeparatorAt(s, |head|);
    assert FindSeparator(s, 0) == Some(|head|);
    assert s[..|head|] == head && s[|head| + 3..] == tail;
  }

  /** Parts without the separator's character survive joining and splitting. */
  lemma {:induction false} SplitOfJoin(parts: seq<string>)
    requires |parts| > 0
    requires forall i | 0 <= i < |parts| :: '>' !in parts[i]
    ensures Split(Join(parts)) == parts
    decreases |parts|
  {
    hide Split;
    if |parts| == 1 {
      SplitAtHead(parts[0], "");
    } else {
      SplitAtHead(parts[0], Join(parts[1..]));
      SplitOfJoin(parts[1..]);
    }
  }
}
