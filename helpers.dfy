/** The validators and id generators of backend/utils/helpers.php. The
    date and time checks are `Calendar.ValidateDate` and
    `Clock.ValidateTime`; random draws and the uniqueness lookups are
    parameters. */
module Helpers {
  import opened Common

  // ---------------------------------------------------------------------
  // validateRequiredFields

  /** The message for a missing field. */
  function RequiredError(field: string): (r: string)
    ensures r == "Field '" + field + "' is required"
  {
    "Field '" + field + "' is required"
  }

  /** `!isset($data[$field]) || empty(trim($data[$field]))`. */
  predicate Missing(body: Payload, field: string)
  {
    field !in body || IsBlank(body[field])
  }

  /** The errors for `fields`, one per failing field, in list order. */
  function RequiredErrors(body: Payload, fields: seq<string>): (r: seq<string>)
    ensures |r| <= |fields|
    decreases |fields|
  {
    if |fields| == 0 then []
    else
      RequiredErrors(body, fields[..|fields| - 1])
      + (if Missing(body, fields[|fields| - 1]) then [RequiredError(fields[|fields| - 1])] else [])
  }

  /** There are no errors exactly when every field is present and not
      blank. */
  lemma {:induction false} RequiredErrorsEmpty(body: Payload, fields: seq<string>)
    ensures RequiredErrors(body, fields) == [] <==> forall i :: 0 <= i < |fields| ==> !Missing(body, fields[i])
    decreases |fields|
  {
    if |fields| > 0 {
      var init := fields[..|fields| - 1];
      RequiredErrorsEmpty(body, init);
      assert forall i :: 0 <= i < |init| ==> init[i] == fields[i];
    }
  }

  /** Every error names a failing field, and every failing field has its
      error. */
  lemma {:induction false} RequiredErrorsExact(body: Payload, fields: seq<string>, e: string)
    ensures e in RequiredErrors(body, fields) <==>
      exists i :: 0 <= i < |fields| && Missing(body, fields[i]) && e == RequiredError(fields[i])
    decreases |fields|
  {
    if |fields| > 0 {
      var init := fields[..|fields| - 1];
      var last := fields[|fields| - 1];
      RequiredErrorsExact(body, init, e);
      assert forall i :: 0 <= i < |init| ==> init[i] == fields[i];
      if exists i :: 0 <= i < |fields| && Missing(body, fields[i]) && e == RequiredError(fields[i]) {
        var i :| 0 <= i < |fields| && Missing(body, fields[i]) && e == RequiredError(fields[i]);
        if i < |init| {
          assert Missing(body, init[i]) && e == RequiredError(init[i]);
        }
      }
    }
  }

  /** A key outside the list does not affect the errors, whatever its
      value. */
  lemma {:induction false} RequiredErrorsIgnore(body: Payload, fields: seq<string>, k: string, v: Value)
    requires k !in fields
    ensures RequiredErrors(body[k := v], fields) == RequiredErrors(body, fields)
    decreases |fields|
  {
    if |fields| > 0 {
      var init := fields[..|fields| - 1];
      forall i | 0 <= i < |init|
        ensures init[i] != k
      {
        assert init[i] == fields[i];
      }
      RequiredErrorsIgnore(body, init, k, v);
      assert fields[|fields| - 1] != k;
    }
  }

  /** `validateRequiredFields`: walks the list and appends an error for each
      absent or blank field. */
  method ValidateRequiredFields(body: Payload, fields: seq<string>) returns (errors: seq<string>)
    ensures errors == RequiredErrors(body, fields)
  {
    errors := [];
    var i := 0;
    while i < |fields|
      invariant 0 <= i <= |fields|
      invariant errors == RequiredErrors(body, fields[..i])
    {
      assert fields[..i + 1][..i] == fields[..i];
      if Missing(body, fields[i]) {
        errors := errors + [RequiredError(fields[i])];
      }
      i := i + 1;
    }
    assert fields[..|fields|] == fields;
  }

  // ---------------------------------------------------------------------
  // Unique ids

  /** The 36 characters ids are drawn from. */
  const IdAlphabet: string := "ABCDEFGHIJKLMNOPQRSTUVWXYZ0123456789"

  /** `[A-Z0-9]` */
  predicate IsIdChar(c: char)
  {
    'A' <= c <= 'Z' || IsDigit(c)
  }

  /** The alphabet holds exactly the characters `[A-Z0-9]`: each drawn
      character is one, and each one can be drawn. */
  lemma AlphabetIsIdChars(c: char)
    ensures c in IdAlphabet <==> IsIdChar(c)
    ensures IsIdChar(c) ==> exists i :: 0 <= i < |IdAlphabet| && IdAlphabet[i] == c
  {
    assert |IdAlphabet| == 36;
    if IsIdChar(c) {
      var i := if 'A' <= c <= 'Z' then c as int - 'A' as int else 26 + (c as int - '0' as int);
      assert IdAlphabet[i] == c;
    }
  }

  /** Draws `random_int(0, 35)` can return. */
  predicate Draws(draws: seq<nat>, n: nat)
  {
    |draws| == n && forall i :: 0 <= i < n ==> draws[i] < |IdAlphabet|
  }

  /** Eight characters from `[A-Z0-9]`. */
  predicate UserIdShaped(s: string)
  {
    |s| == 8 && forall i :: 0 <= i < 8 ==> IsIdChar(s[i])
  }

  /** "SC", a four-digit number from 1000 to 9999, then four characters from
      `[A-Z0-9]`. */
  predicate SchoolIdShaped(s: string)
  {
    |s| == 10 && s[..2] == "SC" && AllDigits(s[2..6]) && 1000 <= Num(s[2..6]) <= 9999
    && forall i :: 6 <= i < 10 ==> IsIdChar(s[i])
  }

  /** Appends the drawn characters one at a time. */
  method AppendDrawn(prefix: string, draws: seq<nat>) returns (s: string)
    requires Draws(draws, |draws|)
    ensures |s| == |prefix| + |draws| && s[..|prefix|] == prefix
    ensures forall i :: 0 <= i < |draws| ==> s[|prefix| + i] == IdAlphabet[draws[i]]
  {
    s := prefix;
    var i := 0;
    while i < |draws|
      invariant 0 <= i <= |draws|
      invariant |s| == |prefix| + i && s[..|prefix|] == prefix
      invariant forall j :: 0 <= j < i ==> s[|prefix| + j] == IdAlphabet[draws[j]]
    {
      s := s + [IdAlphabet[draws[i]]];
      i := i + 1;
    }
  }

  /** `generateUniqueUserId`, with its eight random draws as a parameter. */
  method GenerateUniqueUserId(draws: seq<nat>) returns (id: string)
    requires Draws(draws, 8)
    ensures UserIdShaped(id)
    ensures forall i :: 0 <= i < 8 ==> id[i] == IdAlphabet[draws[i]]
  {
    id := AppendDrawn("", draws);
    forall i | 0 <= i < 8
      ensures IsIdChar(id[i])
    {
      assert id[i] == IdAlphabet[draws[i]] && IdAlphabet[draws[i]] in IdAlphabet;
      AlphabetIsIdChars(id[i]);
    }
  }

  /** A number from 1000 to 9999 is written with four digits. */
  lemma FourDigitText(n: nat)
    requires 1000 <= n <= 9999
    ensures |NatText(n)| == 4
  {
    assert |NatText(n / 1000)| == 1;
    assert |NatText(n / 100)| == 2 by {
      assert (n / 100) / 10 == n / 1000;
    }
    assert |NatText(n / 10)| == 3 by {
      assert (n / 10) / 10 == n / 100;
    }
  }

  /** `str_pad($s, $n, '0', STR_PAD_LEFT)`. */
  function PadLeft(s: string, n: nat): (r: string)
    ensures |r| == if |s| < n then n else |s|
    ensures r[|r| - |s|..] == s
    ensures forall i :: 0 <= i < |r| - |s| ==> r[i] == '0'
  {
    if |s| < n then seq(n - |s|, _ => '0') + s else s
  }

  /** `generateUniqueSchoolId`, with the drawn number and the four character
      draws as parameters. */
  method GenerateUniqueSchoolId(number: nat, draws: seq<nat>) returns (id: string)
    requires 1000 <= number <= 9999 && Draws(draws, 4)
    ensures SchoolIdShaped(id) && Num(id[2..6]) == number
    ensures forall i :: 0 <= i < 4 ==> id[6 + i] == IdAlphabet[draws[i]]
  {
    FourDigitText(number);
    var digits := PadLeft(NatText(number), 4);
    assert digits == NatText(number);
    id := AppendDrawn("SC" + digits, draws);
    assert id[..6] == "SC" + digits;
    assert id[2..6] == digits;
    forall i | 6 <= i < 10
      ensures IsIdChar(id[i])
    {
      assert id[i] == IdAlphabet[draws[i - 6]] && IdAlphabet[draws[i - 6]] in IdAlphabet;
      AlphabetIsIdChars(id[i]);
    }
  }

  /** The number of candidates `generateAvailableUniqueId` tries. */
  const MaxAttempts: nat := 10

  /** `generateAvailableUniqueId`: takes the generated candidates in order
      and returns the first one the table does not hold yet; after ten taken
      ones it fails. `candidates` are the generator's successive outputs (a
      school id when `type === 'school'`, otherwise a user id) and `taken`
      the `unique_id` column of the table it checks. */
  method GenerateAvailableUniqueId(candidates: seq<string>, taken: set<string>) returns (r: Result<string, string>)
    requires |candidates| == MaxAttempts
    ensures r.Ok? <==> exists i :: 0 <= i < MaxAttempts && candidates[i] !in taken
    ensures r.Ok? ==> exists i :: (0 <= i < MaxAttempts && r.value == candidates[i]
      && r.value !in taken && forall j :: 0 <= j < i ==> candidates[j] in taken)
    ensures r.Err? ==> r.error == "Failed to generate unique ID after 10 attempts"
  {
    var attempts := 0;
    while attempts < MaxAttempts
      invariant 0 <= attempts <= MaxAttempts
      invariant forall j :: 0 <= j < attempts ==> candidates[j] in taken
    {
      var id := candidates[attempts];
      if id !in taken {
        return Ok(id);
      }
      attempts := attempts + 1;
    }
    return Err("Failed to generate unique ID after " + NatText(MaxAttempts) + " attempts");
  }
}
