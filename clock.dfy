/** Times of day as the scheduler stores them: text in the form HH:MM:SS or
    HH:MM (backend/utils/helpers.php `validateTime`), and their meaning as
    seconds after midnight. */
module Clock {
  import opened Common
  import opened Text

  /** `[01][0-9]|2[0-3]` */
  predicate HourDigits(a: char, b: char)
  {
    ('0' <= a <= '1' && IsDigit(b)) || (a == '2' && '0' <= b <= '3')
  }

  /** `[0-5][0-9]` */
  predicate SixtyDigits(a: char, b: char)
  {
    '0' <= a <= '5' && IsDigit(b)
  }

  /** `^([01][0-9]|2[0-3]):([0-5][0-9]):([0-5][0-9])$` */
  predicate LongForm(t: string)
  {
    |t| == 8 && HourDigits(t[0], t[1]) && t[2] == ':' && SixtyDigits(t[3], t[4])
    && t[5] == ':' && SixtyDigits(t[6], t[7])
  }

  /** `^([01][0-9]|2[0-3]):([0-5][0-9])$` */
  predicate ShortForm(t: string)
  {
    |t| == 5 && HourDigits(t[0], t[1]) && t[2] == ':' && SixtyDigits(t[3], t[4])
  }

  /** `validateTime`: one of the two patterns matches. */
  predicate ValidateTime(t: string)
  {
    LongForm(t) || ShortForm(t)
  }

  /** A valid time is plain text, which sanitizing leaves as it is. */
  lemma ValidTimeIsPlain(t: string)
    ensures ValidateTime(t) ==> Plain(t)
  {
  }

  /** Two times written in the same one of the two forms. */
  predicate SameForm(a: string, b: string)
  {
    (LongForm(a) && LongForm(b)) || (ShortForm(a) && ShortForm(b))
  }

  /** Seconds after midnight denoted by a valid time; HH:MM means HH:MM:00. */
  function Seconds(t: string): (x: nat)
    requires ValidateTime(t)
    ensures x < 86400
  {
    var h := Pair(t[0], t[1]);
    var m := Pair(t[3], t[4]);
    var s := if |t| == 8 then Pair(t[6], t[7]) else 0;
    3600 * h + 60 * m + s
  }

  /** The HH:MM:SS text of a second of the day. */
  function LongText(x: nat): string
    requires x < 86400
  {
    TwoDigits(x / 3600) + ":" + TwoDigits(x / 60 % 60) + ":" + TwoDigits(x % 60)
  }

  /** Division by sixty, with its quotient and remainder named. */
  lemma BySixty(x: nat, q: nat, r: nat)
    requires r < 60 && x == 60 * q + r
    ensures x / 60 == q && x % 60 == r
  {
  }

  /** Hours, minutes and seconds are recovered from the second they denote. */
  lemma HmsSplit(h: nat, m: nat, s: nat)
    requires h < 24 && m < 60 && s < 60
    ensures (3600 * h + 60 * m + s) / 3600 == h
    ensures (3600 * h + 60 * m + s) / 60 % 60 == m
    ensures (3600 * h + 60 * m + s) % 60 == s
  {
    var x := 3600 * h + 60 * m + s;
    BySixty(x, 60 * h + m, s);
    BySixty(60 * h + m, h, m);
  }

  /** Every second of the day has an HH:MM:SS text that `validateTime`
      accepts and that denotes that second. */
  lemma LongTextValid(x: nat)
    requires x < 86400
    ensures LongForm(LongText(x)) && Seconds(LongText(x)) == x
  {
    var q := x / 60;
    var s := x % 60;
    var h := q / 60;
    var m := q % 60;
    BySixty(x, q, s);
    BySixty(q, h, m);
    assert x == 3600 * h + 60 * m + s;
    assert h < 24;
    HmsSplit(h, m, s);
    assert LongText(x) == TwoDigits(h) + ":" + TwoDigits(m) + ":" + TwoDigits(s);
    HmsText(h, m, s);
  }

  /** The HH:MM:SS text of an hour, minute and second is well formed and
      denotes them. */
  lemma HmsText(h: nat, m: nat, s: nat)
    requires h < 24 && m < 60 && s < 60
    ensures var t := TwoDigits(h) + ":" + TwoDigits(m) + ":" + TwoDigits(s);
      LongForm(t) && Seconds(t) == 3600 * h + 60 * m + s
  {
    var t := TwoDigits(h) + ":" + TwoDigits(m) + ":" + TwoDigits(s);
    assert t[0..2] == TwoDigits(h);
    assert t[3..5] == TwoDigits(m);
    assert t[6..8] == TwoDigits(s);
    assert Pair(t[0], t[1]) == h && Pair(t[3], t[4]) == m && Pair(t[6], t[7]) == s;
  }

  /** A valid HH:MM:SS time is the text of the second it denotes. */
  lemma LongTextOfSeconds(t: string)
    requires LongForm(t)
    ensures LongText(Seconds(t)) == t
  {
    var h, m, s := Pair(t[0], t[1]), Pair(t[3], t[4]), Pair(t[6], t[7]);
    assert h < 24 && m < 60 && s < 60;
    var x := Seconds(t);
    assert x == 3600 * h + 60 * m + s;
    HmsSplit(h, m, s);
    TwoDigitsOfPair(t[0], t[1]);
    TwoDigitsOfPair(t[3], t[4]);
    TwoDigitsOfPair(t[6], t[7]);
    assert LongText(x) == [t[0], t[1]] + ":" + [t[3], t[4]] + ":" + [t[6], t[7]];
    assert t == [t[0], t[1]] + ":" + [t[3], t[4]] + ":" + [t[6], t[7]];
  }

  /** On two digits, text order is numeric order. */
  lemma PairOrder(a: char, b: char, c: char, d: char)
    requires IsDigit(a) && IsDigit(b) && IsDigit(c) && IsDigit(d)
    ensures Before([a, b], [c, d]) <==> Pair(a, b) < Pair(c, d)
    ensures [a, b] == [c, d] <==> Pair(a, b) == Pair(c, d)
  {
    assert [a, b][1..] == [b] && [c, d][1..] == [d];
    assert [b][1..] == [] && [d][1..] == [];
    assert Before([b], [d]) <==> b < d;
    assert Before([a, b], [c, d]) <==> a < c || (a == c && b < d);
  }

  /** Comparing two times as text agrees with comparing the seconds they
      denote, when both are written in the same form. */
  lemma SameFormOrder(a: string, b: string)
    requires SameForm(a, b)
    ensures Before(a, b) <==> Seconds(a) < Seconds(b)
    ensures a == b <==> Seconds(a) == Seconds(b)
  {
    if |a| == 8 {
      LongOrder(a, b);
    } else {
      ShortOrder(a, b);
    }
  }

  /** Two HH:MM:SS texts compare as the seconds they denote. */
  lemma LongOrder(a: string, b: string)
    requires LongForm(a) && LongForm(b)
    ensures Before(a, b) <==> Seconds(a) < Seconds(b)
    ensures a == b <==> Seconds(a) == Seconds(b)
  {
    var ha, hb := a[..2], b[..2];
    var ma, mb := a[3..5], b[3..5];
    var sa, sb := a[6..], b[6..];
    PairOrder(a[0], a[1], b[0], b[1]);
    PairOrder(a[3], a[4], b[3], b[4]);
    PairOrder(a[6], a[7], b[6], b[7]);
    assert ha == [a[0], a[1]] && hb == [b[0], b[1]];
    assert ma == [a[3], a[4]] && mb == [b[3], b[4]];
    assert sa == [a[6], a[7]] && sb == [b[6], b[7]];
    assert a == ha + ([':'] + (ma + ([':'] + sa)));
    assert b == hb + ([':'] + (mb + ([':'] + sb)));
    BeforeConcat(ha, [':'] + (ma + ([':'] + sa)), hb, [':'] + (mb + ([':'] + sb)));
    BeforeConcat([':'], ma + ([':'] + sa), [':'], mb + ([':'] + sb));
    BeforeConcat(ma, [':'] + sa, mb, [':'] + sb);
    BeforeConcat([':'], sa, [':'], sb);
    BeforeIrreflexive([':']);
  }

  /** Two HH:MM texts compare as the seconds they denote. */
  lemma ShortOrder(a: string, b: string)
    requires ShortForm(a) && ShortForm(b)
    ensures Before(a, b) <==> Seconds(a) < Seconds(b)
    ensures a == b <==> Seconds(a) == Seconds(b)
  {
    var ha, hb := a[..2], b[..2];
    var ma, mb := a[3..5], b[3..5];
    PairOrder(a[0], a[1], b[0], b[1]);
    PairOrder(a[3], a[4], b[3], b[4]);
    assert ha == [a[0], a[1]] && hb == [b[0], b[1]];
    assert ma == [a[3], a[4]] && mb == [b[3], b[4]];
    assert a == ha + ([':'] + ma);
    assert b == hb + ([':'] + mb);
    BeforeConcat(ha, [':'] + ma, hb, [':'] + mb);
    BeforeConcat([':'], ma, [':'], mb);
    BeforeIrreflexive([':']);
  }


  /** Where the forms differ, text order is not time order: "10:00" sorts
      before "10:00:00" although both denote ten o'clock. */
  lemma MixedFormsDisagree()
    ensures ValidateTime("10:00") && ValidateTime("10:00:00")
    ensures Seconds("10:00") == Seconds("10:00:00")
    ensures Before("10:00", "10:00:00")
  {
    assert "10:00"[1..] == "0:00" && "10:00:00"[1..] == "0:00:00";
    assert "0:00"[1..] == ":00" && "0:00:00"[1..] == ":00:00";
    assert ":00"[1..] == "00" && ":00:00"[1..] == "00:00";
    assert "00"[1..] == "0" && "00:00"[1..] == "0:00";
    assert "0"[1..] == "" && "0:00"[1..] == ":00";
  }

  /** An hour without its leading zero is refused. */
  lemma ShortHourRefused()
    ensures !ValidateTime("9:00")
  {
  }
}
