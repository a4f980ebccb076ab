/** Shared vocabulary of the scheduler model: wrappers, the JSON scalars a
    request body carries, PHP's loose tests on them, roles, replies and the
    notifications the endpoints emit. */
module Common {

  datatype Option<T> = None | Some(value: T)

  datatype Result<T, E> = Ok(value: T) | Err(error: E)

  /** A scalar of a decoded JSON request body (or a query-string value,
      which is always a `Str`). */
  datatype Value = Int(i: int) | Str(s: string)

  /** A request body: `isset($input[k])` is `k in body`. */
  type Payload = map<string, Value>

  datatype Role = Admin | Teacher | Student

  /** The authenticated user (token verification is not part of this model). */
  datatype Caller = Caller(id: nat, role: Role)

  /** Facts the endpoints look up in the courses and schools tables. */
  datatype Directory = Directory(courseTeacher: map<nat, nat>, schoolAdmin: map<nat, nat>)

  /** An HTTP reply: status code, message, per-field validation errors and an
      optional body. */
  datatype Reply<B> = Reply(code: nat, message: string, errors: seq<string>, body: Option<B>)

  function Fail<B>(code: nat, message: string): (r: Reply<B>)
    ensures r.code == code && r.body == None && r.errors == []
  {
    Reply(code, message, [], None)
  }

  /** A refused request: status code, message and validation errors. */
  datatype Refusal = Refusal(code: nat, message: string, errors: seq<string>)

  function Refused<B>(f: Refusal): Reply<B>
  {
    Reply(f.code, f.message, f.errors, None)
  }

  const Forbidden: string := "Insufficient permissions"

  /** `$input[k]`: an absent key reads as null, whose text is "". */
  function Arg(body: Payload, k: string): Value
  {
    if k in body then body[k] else Str("")
  }

  /** Notification events, in the order the endpoints create them. */
  datatype Notice =
    | LessonCreated(student: nat, lesson: nat)
    | LessonModified(student: nat, lesson: nat)
    | LessonCancelled(student: nat, lesson: nat)
    | FreeSlot(course: nat, teacher: nat, date: string, start: string, end: string)
    | EnrollmentRequested(teacher: nat, request: nat)
    | EnrollmentApproved(student: nat, course: nat)
    | SchoolRequested(admin: nat, request: nat)
    | SchoolApproved(teacher: nat, school: nat)
    | StudentDataChange(admin: nat, student: nat)

  // ---------------------------------------------------------------------
  // Decimal digits

  predicate IsDigit(c: char) { '0' <= c <= '9' }

  predicate AllDigits(s: string) { forall i :: 0 <= i < |s| ==> IsDigit(s[i]) }

  /** Text made only of digits, '-' and ':', such as a date or a time of
      day. `sanitizeInput` (helpers.php) trims blanks, strips tags and
      escapes `& " ' < >`, so it leaves such text as it is. */
  predicate Plain(s: string)
  {
    forall i :: 0 <= i < |s| ==> IsDigit(s[i]) || s[i] == '-' || s[i] == ':'
  }

  /** What the model assumes of the `sanitize` it is given. */
  ghost predicate KeepsPlain(sanitize: string -> string)
  {
    forall s :: Plain(s) ==> sanitize(s) == s
  }

  function DigitValue(c: char): (d: nat)
    requires IsDigit(c)
    ensures d < 10
  {
    (c as int - '0' as int) as nat
  }

  function DigitChar(d: nat): (c: char)
    requires d < 10
    ensures IsDigit(c) && DigitValue(c) == d
  {
    ('0' as int + d) as char
  }

  /** The number two decimal digits denote. */
  function Pair(a: char, b: char): (n: nat)
    requires IsDigit(a) && IsDigit(b)
    ensures n < 100
  {
    10 * DigitValue(a) + DigitValue(b)
  }

  /** The two-digit text of a number below 100, with a leading zero. */
  function TwoDigits(n: nat): (r: string)
    requires n < 100
    ensures |r| == 2 && IsDigit(r[0]) && IsDigit(r[1]) && Pair(r[0], r[1]) == n
  {
    [DigitChar(n / 10), DigitChar(n % 10)]
  }

  lemma TwoDigitsOfPair(a: char, b: char)
    requires IsDigit(a) && IsDigit(b)
    ensures TwoDigits(Pair(a, b)) == [a, b]
  {
    var n := Pair(a, b);
    assert n / 10 == DigitValue(a) && n % 10 == DigitValue(b);
  }

  /** The number a string of decimal digits denotes. */
  function Num(s: string): nat
    requires AllDigits(s)
    decreases |s|
  {
    if |s| == 0 then 0 else Num(s[..|s| - 1]) * 10 + DigitValue(s[|s| - 1])
  }

  /** The decimal text of a natural number, without leading zeros. */
  function NatText(n: nat): (r: string)
    ensures 1 <= |r| && AllDigits(r) && Num(r) == n
    ensures n < 10 <==> |r| == 1
  {
    if n < 10 then [DigitChar(n)]
    else
      var p := NatText(n / 10);
      var r := p + [DigitChar(n % 10)];
      assert r[..|r| - 1] == p;
      r
  }

  function IntText(i: int): string
  {
    if i < 0 then "-" + NatText(-i) else NatText(i)
  }

  // ---------------------------------------------------------------------
  // PHP's loose tests on request values

  predicate IsTrimmed(c: char)
  {
    c == ' ' || c == '\t' || c == '\n' || c == '\r' || c == '\0' || c == '\U{000B}'
  }

  function TrimLeft(s: string): (r: string)
    ensures |r| <= |s| && r == s[|s| - |r|..]
    ensures r == [] || !IsTrimmed(r[0])
  {
    if |s| > 0 && IsTrimmed(s[0]) then TrimLeft(s[1..]) else s
  }

  function TrimRight(s: string): (r: string)
    ensures |r| <= |s| && r == s[..|r|]
    ensures r == [] || !IsTrimmed(r[|r| - 1])
  {
    if |s| > 0 && IsTrimmed(s[|s| - 1]) then TrimRight(s[..|s| - 1]) else s
  }

  /** PHP `trim` with its default character list. */
  function Trim(s: string): string { TrimLeft(TrimRight(s)) }

  /** PHP `empty($s)` for a string: "" and "0" are empty. */
  predicate EmptyText(s: string) { s == "" || s == "0" }

  /** `empty(trim($v))`. */
  predicate IsBlank(v: Value)
  {
    match v
    case Int(i) => i == 0
    case Str(s) => EmptyText(Trim(s))
  }

  /** The text PHP makes of a value when it is used as a string. */
  function AsText(v: Value): string
  {
    match v
    case Int(i) => IntText(i)
    case Str(s) => s
  }

  /** The row id a value selects when bound to `WHERE id = ?`: a
      non-negative integer, or a numeric string that denotes a natural
      number exactly ("5", " 5", "5.0", "0.5e1"), which SQLite converts under
      the column's integer affinity; anything else selects no row. */
  function AsId(v: Value): Option<nat>
  {
    match v
    case Int(i) => if i >= 0 then Some(i) else None
    case Str(s) => TextId(s)
  }

  /** The key `getById($input['id'])` finds in a table, if any: the body
      has an `id` that selects a stored row. */
  function Target<T>(table: map<nat, T>, body: Payload): (r: Option<nat>)
    ensures r.Some? <==> "id" in body && AsId(body["id"]).Some? && AsId(body["id"]).value in table
    ensures r.Some? ==> r == AsId(body["id"])
  {
    if "id" in body && AsId(body["id"]).Some? && AsId(body["id"]).value in table then AsId(body["id"]) else None
  }

  /** PHP truthiness of a value: 0, "" and "0" are false. */
  predicate Truthy(v: Value)
  {
    match v
    case Int(i) => i != 0
    case Str(s) => !EmptyText(s)
  }

  /** `$v == 1` under PHP's loose comparison: the integer 1, or a numeric
      string that denotes 1. */
  predicate LooselyOne(v: Value)
  {
    match v
    case Int(i) => i == 1
    case Str(s) => TextId(s) == Some(1)
  }

  /** `isset($body[k]) && $body[k] == 1`. */
  predicate FlagIsOne(body: Payload, k: string) { k in body && LooselyOne(body[k]) }

  /** `isset($body[k]) ? $body[k] : false`, read as a boolean. */
  predicate FlagTruthy(body: Payload, k: string) { k in body && Truthy(body[k]) }

  /** `$body[k] ?? null` as optional text. */
  function TextField(body: Payload, k: string): Option<string>
  {
    if k in body then Some(AsText(body[k])) else None
  }

  lemma {:induction false} NumOfNatText(n: nat, s: string)
    requires AllDigits(s) && |s| > 0 && s[0] != '0'
    requires Num(s) == n
    ensures NatText(n) == s
    decreases |s|
  {
    if |s| == 1 {
      assert n == DigitValue(s[0]);
      assert n != 0;
    } else {
      var p := s[..|s| - 1];
      assert AllDigits(p);
      assert p[0] == s[0];
      NumPositive(p);
      assert n / 10 == Num(p) && n % 10 == DigitValue(s[|s| - 1]);
      NumOfNatText(n / 10, p);
      assert NatText(n) == NatText(n / 10) + [DigitChar(n % 10)];
      assert s == p + [s[|s| - 1]];
    }
  }

  lemma {:induction false} NumPositive(s: string)
    requires AllDigits(s) && |s| > 0 && s[0] != '0'
    ensures Num(s) >= 1
    decreases |s|
  {
    if |s| > 1 {
      var p := s[..|s| - 1];
      assert p[0] == s[0];
      NumPositive(p);
    } else {
      assert Num(s) == DigitValue(s[0]);
    }
  }

  // ---------------------------------------------------------------------
  // Numeric strings, as PHP 8 and SQLite read them

  /** The blanks both allow around a number: space, tab, newline, carriage
      return, vertical tab and form feed. */
  predicate IsSpace(c: char)
  {
    c == ' ' || c == '\t' || c == '\n' || c == '\r' || c == '\U{000B}' || c == '\U{000C}'
  }

  function SkipSpace(s: string): (r: string)
    ensures |r| <= |s|
  {
    if |s| > 0 && IsSpace(s[0]) then SkipSpace(s[1..]) else s
  }

  /** The digits at the start of `s`. */
  function DigitRun(s: string): (r: string)
    ensures AllDigits(r) && |r| <= |s|
  {
    if |s| > 0 && IsDigit(s[0]) then [s[0]] + DigitRun(s[1..]) else []
  }

  /** `m` times ten to the `k`. */
  function Shift(m: nat, k: nat): nat
  {
    if k == 0 then m else 10 * Shift(m, k - 1)
  }

  /** `m` divided by ten to the `k`, rounded down. */
  function Drop(m: nat, k: nat): nat
  {
    if k == 0 then m else Drop(m / 10, k - 1)
  }

  /** `m` divided by ten to the `k`, when that leaves no remainder. */
  function Exact(m: nat, k: nat): Option<nat>
  {
    if k == 0 then Some(m) else if m % 10 != 0 then None else Exact(m / 10, k - 1)
  }

  /** A decimal numeral: its sign, the digits of its integer part and of
      its fraction read together as one number, how many of those digits
      are fraction digits, and its exponent. It denotes
      (-1 if negative) * mantissa * 10^(exponent - scale). */
  datatype Numeral = Numeral(negative: bool, mantissa: nat, scale: nat, exponent: int)

  /** An exponent part, `e` or `E`, a sign and digits, at the head of `w`:
      its value and the text after it. Without digits there is no exponent
      part and `w` is left as it is. */
  function ExponentPart(w: string): (int, string)
  {
    if |w| > 0 && (w[0] == 'e' || w[0] == 'E') then
      var x := w[1..];
      var y := if |x| > 0 && (x[0] == '+' || x[0] == '-') then x[1..] else x;
      var d := DigitRun(y);
      if d == [] then (0, w)
      else ((if |x| > 0 && x[0] == '-' then 0 - Num(d) else Num(d)), y[|d|..])
    else (0, w)
  }

  /** Integer digits `a` and fraction digits `b` read together as one
      number. */
  function Joined(a: string, b: string): nat
    requires AllDigits(a) && AllDigits(b)
  {
    Shift(Num(a), |b|) + Num(b)
  }

  /** The digits of a number read together as one, how many of them are
      fraction digits, and the text after them. */
  datatype Decimal = Decimal(mantissa: nat, scale: nat, rest: string)

  /** Digits with an optional decimal point at the head of `u`: None
      when there is no digit before or after the point. */
  function DecimalPart(u: string): Option<Decimal>
  {
    var whole := DigitRun(u);
    AfterWhole(Num(whole), whole != [], u[|whole|..])
  }

  /** The rest of a decimal part once its integer digits, read as `n`, are
      consumed; `digits` tells whether there were any. */
  function AfterWhole(n: nat, digits: bool, v: string): Option<Decimal>
  {
    if |v| > 0 && v[0] == '.' then
      var fraction := DigitRun(v[1..]);
      if !digits && fraction == [] then None
      else Some(Decimal(Shift(n, |fraction|) + Num(fraction), |fraction|, v[1 + |fraction|..]))
    else if !digits then None
    else Some(Decimal(n, 0, v))
  }

  /** The longest numeral at the head of `s` after its leading blanks
      (PHP's leading-numeric string), with the text after it; None when
      `s` starts with no number. */
  function LeadingNumeral(s: string): Option<(Numeral, string)>
  {
    var t := SkipSpace(s);
    var d := DecimalPart(if |t| > 0 && (t[0] == '+' || t[0] == '-') then t[1..] else t);
    if d.None? then None
    else
      var e := ExponentPart(d.value.rest);
      Some((Numeral(|t| > 0 && t[0] == '-', d.value.mantissa, d.value.scale, e.0), e.1))
  }

  /** The numeral `s` is as a whole, blanks around it allowed: PHP's
      numeric string, and the text SQLite converts under numeric affinity. */
  function NumericText(s: string): Option<Numeral>
  {
    var p := LeadingNumeral(s);
    if p.Some? && SkipSpace(p.value.1) == [] then Some(p.value.0) else None
  }

  /** The natural number a numeral denotes, when it denotes one exactly. */
  function NumeralNat(n: Numeral): Option<nat>
  {
    var shift := n.exponent - n.scale;
    if n.mantissa == 0 then Some(0)
    else if n.negative then None
    else if shift >= 0 then Some(Shift(n.mantissa, shift))
    else Exact(n.mantissa, 0 - shift)
  }

  /** The number a numeral denotes, rounded toward zero. */
  function Truncated(n: Numeral): int
  {
    var shift := n.exponent - n.scale;
    var m := if shift >= 0 then Shift(n.mantissa, shift) else Drop(n.mantissa, 0 - shift);
    if n.negative then 0 - m else m
  }

  /** The row id a string selects: the natural number it denotes when it
      is a numeric string. */
  function TextId(s: string): Option<nat>
  {
    var n := NumericText(s);
    if n.Some? then NumeralNat(n.value) else None
  }

  const MaxLong: int := 0x7fff_ffff_ffff_ffff

  /** PHP 8 `intval` of a string: the leading numeral, rounded toward zero
      and held to the 64-bit range; 0 when the text starts with no number. */
  function IntVal(s: string): (r: int)
    ensures -MaxLong - 1 <= r <= MaxLong
    ensures LeadingNumeral(s).None? ==> r == 0
  {
    var p := LeadingNumeral(s);
    if p.None? then 0
    else
      var v := Truncated(p.value.0);
      if v > MaxLong then MaxLong else if v < -MaxLong - 1 then -MaxLong - 1 else v
  }

  lemma {:induction false} DigitRunOfDigits(s: string)
    requires AllDigits(s)
    ensures DigitRun(s) == s
    decreases |s|
  {
    if |s| > 0 {
      DigitRunOfDigits(s[1..]);
    }
  }

  /** A run of digits is a whole decimal part, without fraction. */
  lemma DigitsDecimalPart(s: string)
    requires AllDigits(s) && s != []
    ensures DecimalPart(s) == Some(Decimal(Num(s), 0, []))
  {
    DigitRunOfDigits(s);
    assert s[|s|..] == [];
  }

  /** The decimal text of a natural number is a whole numeral: unsigned,
      without fraction or exponent, denoting the number. */
  lemma NatTextNumeral(n: nat)
    ensures LeadingNumeral(NatText(n)) == Some((Numeral(false, n, 0, 0), []))
  {
    var s := NatText(n);
    assert !IsSpace(s[0]);
    assert SkipSpace(s) == s;
    assert s[0] != '+' && s[0] != '-';
    DigitsDecimalPart(s);
    assert ExponentPart([]) == (0, []);
  }

  /** An id written without leading zeros reads back as itself. */
  lemma TextIdRoundTrip(n: nat)
    ensures TextId(NatText(n)) == Some(n)
  {
    NatTextNumeral(n);
    assert SkipSpace([]) == [];
    var num := Numeral(false, n, 0, 0);
    assert NumericText(NatText(n)) == Some(num);
    assert NumeralNat(num) == Some(n);
  }

  /** `intval` reads back the decimal text of any natural number in the
      64-bit range. */
  lemma IntValOfNatText(n: nat)
    requires n <= MaxLong
    ensures IntVal(NatText(n)) == n
  {
    NatTextNumeral(n);
    assert Truncated(Numeral(false, n, 0, 0)) == n;
  }

  lemma {:induction false} DigitRunStops(a: string, b: string)
    requires AllDigits(a) && (b == [] || !IsDigit(b[0]))
    ensures DigitRun(a + b) == a
    decreases |a|
  {
    if a == [] {
      assert a + b == b;
    } else {
      assert (a + b)[1..] == a[1..] + b;
      DigitRunStops(a[1..], b);
    }
  }

  lemma {:induction false} SkipBlanks(pre: string, s: string)
    requires forall i :: 0 <= i < |pre| ==> IsSpace(pre[i])
    requires s == [] || !IsSpace(s[0])
    ensures SkipSpace(pre + s) == s
    decreases |pre|
  {
    if pre == [] {
      assert pre + s == s;
    } else {
      assert (pre + s)[1..] == pre[1..] + s;
      SkipBlanks(pre[1..], s);
    }
  }

  lemma AfterPoint(n: nat, digits: bool, b: string, r: string)
    requires AllDigits(b) && (r == [] || !IsDigit(r[0])) && (digits || b != [])
    ensures AfterWhole(n, digits, ['.'] + (b + r)) == Some(Decimal(Shift(n, |b|) + Num(b), |b|, r))
  {
    DigitRunStops(b, r);
    var t := ['.'] + (b + r);
    assert t[1..] == b + r;
    assert t[1 + |b|..] == r;
  }

  lemma AfterDigitsPoint(a: string, b: string, r: string)
    requires AllDigits(a) && AllDigits(b) && (a != [] || b != [])
    requires r == [] || !IsDigit(r[0])
    ensures AfterWhole(Num(a), a != [], ['.'] + (b + r)) == Some(Decimal(Joined(a, b), |b|, r))
  {
    AfterPoint(Num(a), a != [], b, r);
  }

  /** Digits, a point and digits, followed by text that does not continue
      them. */
  lemma PointedDecimalPart(a: string, b: string, r: string)
    requires AllDigits(a) && AllDigits(b) && (a != [] || b != [])
    requires r == [] || !IsDigit(r[0])
    ensures DecimalPart(a + "." + b + r) == Some(Decimal(Joined(a, b), |b|, r))
  {
    var u := a + "." + b + r;
    var tail := ['.'] + (b + r);
    assert u == a + tail;
    DigitRunStops(a, tail);
    assert u[|a|..] == tail;
    AfterDigitsPoint(a, b, r);
  }

  /** Blanks, then an unsigned decimal part: the numeral is positive. */
  lemma UnsignedLeading(pre: string, t: string)
    requires forall i :: 0 <= i < |pre| ==> IsSpace(pre[i])
    requires t != [] && IsDigit(t[0]) && DecimalPart(t).Some?
    ensures var d := DecimalPart(t).value;
      var e := ExponentPart(d.rest);
      LeadingNumeral(pre + t) == Some((Numeral(false, d.mantissa, d.scale, e.0), e.1))
  {
    SkipBlanks(pre, t);
  }

  lemma PaddedLeading(pre: string, t: string, post: string, m: nat, k: nat)
    requires forall i :: 0 <= i < |pre| ==> IsSpace(pre[i])
    requires post == [] || IsSpace(post[0])
    requires t != [] && IsDigit(t[0]) && DecimalPart(t + post) == Some(Decimal(m, k, post))
    ensures LeadingNumeral(pre + (t + post)) == Some((Numeral(false, m, k, 0), post))
  {
    assert (t + post)[0] == t[0];
    UnsignedLeading(pre, t + post);
    assert ExponentPart(post) == (0, post);
  }

  /** Blanks, an unsigned decimal part without exponent, and blanks are
      numeric text. */
  lemma PaddedDecimalId(pre: string, t: string, post: string, m: nat, k: nat)
    requires forall i :: 0 <= i < |pre| ==> IsSpace(pre[i])
    requires forall i :: 0 <= i < |post| ==> IsSpace(post[i])
    requires t != [] && IsDigit(t[0]) && DecimalPart(t + post) == Some(Decimal(m, k, post))
    ensures TextId(pre + t + post) == NumeralNat(Numeral(false, m, k, 0))
  {
    assert pre + t + post == pre + (t + post);
    PaddedLeading(pre, t, post, m, k);
    SkipBlanks(post, []);
    assert post + [] == post;
  }

  /** Blanks, digits with a decimal point, and blanks are numeric text:
      it selects the row of the natural number it denotes, if any. */
  lemma PointedId(pre: string, a: string, b: string, post: string)
    requires forall i :: 0 <= i < |pre| ==> IsSpace(pre[i])
    requires forall i :: 0 <= i < |post| ==> IsSpace(post[i])
    requires AllDigits(a) && AllDigits(b) && a != []
    ensures TextId(pre + a + "." + b + post) == NumeralNat(Numeral(false, Joined(a, b), |b|, 0))
  {
    var t := a + "." + b;
    assert t + post == a + "." + b + post && pre + t + post == pre + a + "." + b + post;
    PointedDecimalPart(a, b, post);
    assert t[0] == a[0];
    PaddedDecimalId(pre, t, post, Joined(a, b), |b|);
  }

  /** Blanks around an id's decimal text: it still selects that id, so
      " 5" and "5\n" select row 5. */
  lemma PaddedId(pre: string, n: nat, post: string)
    requires forall i :: 0 <= i < |pre| ==> IsSpace(pre[i])
    requires forall i :: 0 <= i < |post| ==> IsSpace(post[i])
    ensures TextId(pre + NatText(n) + post) == Some(n)
  {
    var t := NatText(n);
    assert DecimalPart(t + post) == Some(Decimal(n, 0, post)) by {
      DigitRunStops(t, post);
      assert (t + post)[|t|..] == post;
    }
    PaddedDecimalId(pre, t, post, n, 0);
  }

  lemma JoinedDigit(a: string, d: char)
    requires AllDigits(a) && IsDigit(d)
    ensures Joined(a, [d]) == 10 * Num(a) + DigitValue(d)
  {
    assert Num([d]) == DigitValue(d) by {
      assert [d][..0] == [];
    }
    assert Shift(Num(a), 1) == 10 * Num(a);
  }

  /** A numeral with one fraction digit denotes a natural number exactly
      when that digit is zero. */
  lemma TenthsNat(k: nat, d: nat)
    requires d < 10
    ensures NumeralNat(Numeral(false, 10 * k + d, 1, 0)) == if d == 0 then Some(k) else None
  {
    var m := 10 * k + d;
    assert m % 10 == d && m / 10 == k;
    if m != 0 {
      assert Exact(m, 1) == (if d != 0 then None else Exact(k, 0));
    }
  }

  lemma FractionDigitNumeral(pre: string, n: nat, d: char, post: string)
    requires forall i :: 0 <= i < |pre| ==> IsSpace(pre[i])
    requires forall i :: 0 <= i < |post| ==> IsSpace(post[i])
    requires IsDigit(d)
    ensures TextId(pre + NatText(n) + "." + [d] + post) == if DigitValue(d) == 0 then Some(n) else None
  {
    var s := NatText(n);
    PointedId(pre, s, [d], post);
    JoinedDigit(s, d);
    assert Numeral(false, Joined(s, [d]), |[d]|, 0) == Numeral(false, 10 * n + DigitValue(d), 1, 0);
    TenthsNat(n, DigitValue(d));
  }

  /** Blanks around an id and one fraction digit after it: the text
      selects the id's row when the digit is zero and no row otherwise, so
      " 5.0 " selects row 5 and "5.5" none. */
  lemma FractionDigitId(pre: string, n: nat, d: char, post: string)
    requires forall i :: 0 <= i < |pre| ==> IsSpace(pre[i])
    requires forall i :: 0 <= i < |post| ==> IsSpace(post[i])
    requires IsDigit(d)
    ensures TextId(pre + NatText(n) + "." + [d] + post) == if d == '0' then Some(n) else None
  {
    FractionDigitNumeral(pre, n, d, post);
    ZeroDigit(d);
  }

  lemma ZeroDigit(d: char)
    requires IsDigit(d)
    ensures DigitValue(d) == 0 <==> d == '0'
  {
  }

  /** `intval` reads an exponent: "1e2" is 100. */
  lemma IntValExponent()
    ensures IntVal("1e2") == 100
  {
    var s := "1e2";
    assert SkipSpace(s) == s;
    assert s == "1" + "e2";
    DigitRunStops("1", "e2");
    assert s[1..] == "e2";
    assert DecimalPart(s) == Some(Decimal(1, 0, "e2"));
    assert "e2"[1..] == "2";
    DigitRunOfDigits("2");
    assert "2"[1..] == [];
    assert ExponentPart("e2") == (2, []);
    assert Shift(1, 2) == 100;
  }

  lemma FractionLeading(n: nat, d: char)
    requires IsDigit(d)
    ensures LeadingNumeral(NatText(n) + "." + [d]) == Some((Numeral(false, Joined(NatText(n), [d]), 1, 0), []))
  {
    var s := NatText(n);
    var t := s + "." + [d];
    PointedDecimalPart(s, [d], []);
    assert t[0] == s[0];
    PaddedLeading([], t, [], Joined(s, [d]), |[d]|);
    assert [] + (t + []) == t;
  }

  lemma TruncatedTenths(k: nat, d: nat)
    requires d < 10
    ensures Truncated(Numeral(false, 10 * k + d, 1, 0)) == k
  {
    var m := 10 * k + d;
    assert m / 10 == k;
    assert Drop(m, 1) == k;
  }

  /** `intval` drops a fraction: "5.9" reads as 5. */
  lemma IntValDropsFraction(n: nat, d: char)
    requires n <= MaxLong && IsDigit(d)
    ensures IntVal(NatText(n) + "." + [d]) == n
  {
    var t := NatText(n) + "." + [d];
    var num := Numeral(false, Joined(NatText(n), [d]), 1, 0);
    assert LeadingNumeral(t) == Some((num, [])) by {
      FractionLeading(n, d);
    }
    assert Truncated(num) == n by {
      JoinedDigit(NatText(n), d);
      assert num == Numeral(false, 10 * n + DigitValue(d), 1, 0);
      TruncatedTenths(n, DigitValue(d));
    }
    IntValOfLeading(t, num, []);
  }

  lemma IntValOfLeading(s: string, num: Numeral, rest: string)
    requires LeadingNumeral(s) == Some((num, rest))
    requires -MaxLong - 1 <= Truncated(num) <= MaxLong
    ensures IntVal(s) == Truncated(num)
  {
  }
}
