/** The stage settings form: how a typed value is parsed, how an edited
    range is repaired so that its minimum stays at or below its maximum,
    how the actor count is read, and which stages are offered for
    editing. */
module Settings {
  import opened Stages

  // ---- The JavaScript number parsers ----

  predicate IsDigit(ch: char) {
    '0' <= ch <= '9'
  }

  function DigitValue(ch: char): nat
    requires IsDigit(ch)
  {
    ch as int - '0' as int
  }

  /** The whitespace skipped before a number (its ASCII part: space, tab,
      line feed, vertical tab, form feed, carriage return). */
  predicate IsSpace(ch: char) {
    ch == ' ' || ch == '\t' || ch == '\n' || ch == '\U{000B}' || ch == '\U{000C}' || ch == '\r'
  }

  function SkipSpaces(s: seq<char>): (r: seq<char>)
    ensures |r| <= |s| && r == s[|s| - |r|..]
    ensures |r| > 0 ==> !IsSpace(r[0])
  {
    if |s| > 0 && IsSpace(s[0]) then SkipSpaces(s[1..]) else s
  }

  /** The length of the run of digits `s` starts with. */
  function DigitRun(s: seq<char>): (n: nat)
    ensures n <= |s|
    ensures forall i :: 0 <= i < n ==> IsDigit(s[i])
    ensures n < |s| ==> !IsDigit(s[n])
  {
    if |s| > 0 && IsDigit(s[0]) then 1 + DigitRun(s[1..]) else 0
  }

  /** The decimal value of a run of digits. */
  function DigitsValue(ds: seq<char>): nat
    requires forall i :: 0 <= i < |ds| ==> IsDigit(ds[i])
  {
    if |ds| == 0 then 0 else DigitsValue(ds[..|ds| - 1]) * 10 + DigitValue(ds[|ds| - 1])
  }

  function Pow10(n: nat): (r: nat)
    ensures r >= 1
  {
    if n == 0 then 1 else 10 * Pow10(n - 1)
  }

  /** An optional sign: whether it is '-', and what follows it. */
  function Sign(t: seq<char>): (bool, seq<char>) {
    if |t| > 0 && (t[0] == '-' || t[0] == '+') then (t[0] == '-', t[1..]) else (false, t)
  }

  /** `parseInt(s, 10)`: leading whitespace, an optional sign and the
      longest run of digits; None stands for NaN (no digit at all). */
  function ParseInt(s: seq<char>): (r: Option<int>)
  {
    var (neg, u) := Sign(SkipSpaces(s));
    SignedDigits(neg, u)
  }

  /** The longest digit run at the start of `u`, negated when `neg`. */
  function SignedDigits(neg: bool, u: seq<char>): Option<int> {
    var n := DigitRun(u);
    if n == 0 then None
    else
      var v: int := DigitsValue(u[..n]);
      Some(if neg then -v else v)
  }

  /** An exponent part `e`/`E`, optional sign and at least one digit, at
      the start of `t`; a lone `e` is not part of the number. */
  function Exponent(t: seq<char>): int {
    if |t| > 0 && (t[0] == 'e' || t[0] == 'E') then
      var (neg, u) := Sign(t[1..]);
      var n := DigitRun(u);
      if n == 0 then 0
      else
        var v: int := DigitsValue(u[..n]);
        if neg then -v else v
    else 0
  }

  function Scale(m: real, e: int): real {
    if e >= 0 then m * (Pow10(e) as real) else m / (Pow10(-e) as real)
  }

  /** The digits after a decimal point in `t` (following the integer
      digits `ds`) and an optional exponent; None when there is no digit
      on either side of the point. */
  function Fraction(ds: seq<char>, t: seq<char>): (r: Option<real>)
    requires forall i :: 0 <= i < |ds| ==> IsDigit(ds[i])
  {
    var f := DigitRun(t);
    if |ds| == 0 && f == 0 then None
    else
      var fracPart := (DigitsValue(t[..f]) as real) / (Pow10(f) as real);
      Some(Scale(DigitsValue(ds) as real + fracPart, Exponent(t[f..])))
  }

  /** An unsigned decimal at the start of `u`: digits, an optional
      fraction, an optional exponent. */
  function Unsigned(u: seq<char>): (r: Option<real>)
  {
    var n := DigitRun(u);
    var rest := u[n..];
    if |rest| > 0 && rest[0] == '.' then Fraction(u[..n], rest[1..])
    else if n == 0 then None
    else Some(Scale(DigitsValue(u[..n]) as real, Exponent(rest)))
  }

  /** `parseFloat(s)` on decimal text: leading whitespace, an optional
      sign, then an unsigned decimal; None stands for NaN. */
  function ParseFloat(s: seq<char>): (r: Option<real>)
  {
    var (neg, u) := Sign(SkipSpaces(s));
    match Unsigned(u)
    case None => None
    case Some(m) => Some(if neg then -m else m)
  }

  /** `parseFloat(value) || 0`: NaN becomes 0. */
  function FloatOr0(s: seq<char>): real {
    match ParseFloat(s)
    case Some(v) => v
    case None => 0.0
  }

  /** `parseInt(value, 10) || 0`: NaN becomes 0. */
  function IntOr0(s: seq<char>): int {
    match ParseInt(s)
    case Some(v) => v
    case None => 0
  }

  // ---- Writing numbers, for the round trips ----

  function DigitChar(d: nat): (ch: char)
    requires d < 10
    ensures IsDigit(ch) && DigitValue(ch) == d
  {
    ('0' as int + d) as char
  }

  /** The decimal digits of n, without leading zeros. */
  function NatToString(n: nat): (s: seq<char>)
    ensures |s| > 0 && forall i :: 0 <= i < |s| ==> IsDigit(s[i])
    ensures !IsSpace(s[0]) && s[0] != '-' && s[0] != '+'
  {
    if n < 10 then [DigitChar(n)] else NatToString(n / 10) + [DigitChar(n % 10)]
  }

  function IntToString(n: int): seq<char> {
    if n < 0 then ['-'] + NatToString(-n) else NatToString(n)
  }

  lemma {:induction false} NatToStringValue(n: nat)
    ensures DigitsValue(NatToString(n)) == n
    decreases n
  {
    if n >= 10 {
      NatToStringValue(n / 10);
      var s := NatToString(n);
      assert s[..|s| - 1] == NatToString(n / 10);
    }
  }

  /** A digit run followed by a non-digit: the run is all the digits. */
  lemma {:induction false} DigitRunOfDigits(ds: seq<char>, t: seq<char>)
    requires forall i :: 0 <= i < |ds| ==> IsDigit(ds[i])
    requires |t| > 0 ==> !IsDigit(t[0])
    ensures DigitRun(ds + t) == |ds|
    decreases |ds|
  {
    if |ds| > 0 {
      assert (ds + t)[1..] == ds[1..] + t;
      DigitRunOfDigits(ds[1..], t);
    } else {
      assert ds + t == t;
    }
  }

  lemma DigitIsNotSpaceOrSign(ch: char)
    requires IsDigit(ch)
    ensures !IsSpace(ch) && ch != '-' && ch != '+'
  {
  }

  /** `parseInt` reads a run of digits and stops at the first character
      that is not a digit, whatever follows ("2.5" reads as 2). */
  lemma ParseIntStops(ds: seq<char>, t: seq<char>)
    requires |ds| > 0 && forall i :: 0 <= i < |ds| ==> IsDigit(ds[i])
    requires |t| > 0 ==> !IsDigit(t[0])
    ensures ParseInt(ds + t) == Some(DigitsValue(ds))
  {
    var s := ds + t;
    assert s[0] == ds[0];
    DigitIsNotSpaceOrSign(s[0]);
    NoSpaceNoSkip(s);
    assert Sign(s) == (false, s);
    DigitsThenStop(false, ds, t);
  }

  /** A run of digits followed by a non-digit reads as its value. */
  lemma DigitsThenStop(neg: bool, ds: seq<char>, t: seq<char>)
    requires |ds| > 0 && forall i :: 0 <= i < |ds| ==> IsDigit(ds[i])
    requires |t| > 0 ==> !IsDigit(t[0])
    ensures SignedDigits(neg, ds + t) == Some(if neg then -(DigitsValue(ds) as int) else DigitsValue(ds))
  {
    var u := ds + t;
    assert DigitRun(u) == |ds| by {
      DigitRunOfDigits(ds, t);
    }
    assert u[..|ds|] == ds;
  }

  /** Writing an integer and reading it back with `parseInt` gives it back. */
  lemma ParseIntRoundTrip(n: int)
    ensures ParseInt(IntToString(n)) == Some(n)
  {
    var m := if n < 0 then -n else n;
    var ds := NatToString(m);
    NatToStringValue(m);
    if n < 0 {
      ParseIntNegative(ds);
    } else {
      ParseIntStops(ds, []);
      assert ds + [] == ds;
    }
  }

  /** A minus sign followed by digits reads as the negated digits. */
  lemma ParseIntNegative(ds: seq<char>)
    requires |ds| > 0 && forall i :: 0 <= i < |ds| ==> IsDigit(ds[i])
    ensures ParseInt(['-'] + ds) == Some(-(DigitsValue(ds) as int))
  {
    var s := ['-'] + ds;
    NoSpaceNoSkip(s);
    assert s[1..] == ds;
    assert Sign(s) == (true, ds);
    DigitsThenStop(true, ds, []);
    assert ds + [] == ds;
  }

  /** Text that does not start with whitespace is not skipped into. */
  lemma NoSpaceNoSkip(s: seq<char>)
    requires |s| > 0 && !IsSpace(s[0])
    ensures SkipSpaces(s) == s
  {
  }

  /** Writing a whole number and reading it back with `parseFloat` gives
      it back. */
  lemma ParseFloatOfNat(n: nat)
    ensures ParseFloat(NatToString(n)) == Some(n as real)
  {
    var ds := NatToString(n);
    NatToStringValue(n);
    assert SkipSpaces(ds) == ds;
    assert Sign(ds) == (false, ds);
    UnsignedOfDigits(ds);
  }

  lemma UnsignedOfDigits(ds: seq<char>)
    requires |ds| > 0 && forall i :: 0 <= i < |ds| ==> IsDigit(ds[i])
    ensures Unsigned(ds) == Some(DigitsValue(ds) as real)
  {
    DigitRunOfDigits(ds, []);
    assert ds + [] == ds;
    var rest := ds[|ds|..];
    assert ds[..|ds|] == ds && rest == [];
    assert Exponent(rest) == 0;
    assert Pow10(0) == 1;
  }

  /** Text with no digit before its exponent reads as 0 in a range field. */
  lemma NoDigitsReadsZero(s: seq<char>)
    requires forall i :: 0 <= i < |s| ==> !IsDigit(s[i])
    ensures FloatOr0(s) == 0.0 && IntOr0(s) == 0
  {
    var (neg, u) := Sign(SkipSpaces(s));
    assert SkipSpaces(s) == s[|s| - |SkipSpaces(s)|..];
    assert forall i :: 0 <= i < |u| ==> !IsDigit(u[i]);
    var rest := u[DigitRun(u)..];
    if |rest| > 1 {
      assert !IsDigit(rest[1..][0]);
    }
  }

  // ---- `handleInputChange` ----

  /** The inputs of the form: the actor count and the four range bounds. */
  datatype Field = ActorsField | ProcessMin | ProcessMax | WaitMin | WaitMax

  /** Setting the minimum of a range; a minimum above the maximum pulls
      the maximum up to it. */
  function SetMin(r: Range, v: real): (res: Range)
    ensures res.min == v && res.min <= res.max
    ensures v <= r.max ==> res.max == r.max
    ensures v > r.max ==> res.max == v
  {
    if v > r.max then Range(v, v) else Range(v, r.max)
  }

  /** Setting the maximum of a range; a maximum below the minimum pulls
      the minimum down to it. */
  function SetMax(r: Range, v: real): (res: Range)
    ensures res.max == v && res.min <= res.max
    ensures v >= r.min ==> res.min == r.min
    ensures v < r.min ==> res.min == v
  {
    if v < r.min then Range(v, v) else Range(r.min, v)
  }

  /** The actor count typed into the form: the text 'Infinity' (also sent
      for an empty input) is unlimited, anything else is read by
      `parseInt`, with NaN as 0. */
  function ParseActors(value: seq<char>): (r: Actors)
    ensures r == Infinite <==> value == "Infinity"
    ensures r != Infinite ==> r == Limit(IntOr0(value))
  {
    if value == "Infinity" then Infinite else Limit(IntOr0(value))
  }

  /** The value the actors input sends: empty text is sent as 'Infinity'. */
  function ActorsInput(typed: seq<char>): (r: seq<char>)
    ensures ParseActors(r) == Infinite <==> typed == "" || typed == "Infinity"
  {
    if typed == "" then "Infinity" else typed
  }

  /** Does the stage have the range that `field` addresses? */
  predicate HasField(st: Stage, field: Field) {
    match field
    case ActorsField => true
    case ProcessMin => st.processTime.Some?
    case ProcessMax => st.processTime.Some?
    case WaitMin => st.waitTime.Some?
    case WaitMax => st.waitTime.Some?
  }

  /** `handleInputChange`: the stage `stageId` with `field` set from the
      text `value`, or None when no stage has that id. The edit addresses
      the first stage with the id; it keeps the stage's id, name and kind
      and every field outside the edited range; the edited bound is set
      by SetMin or SetMax, which also repairs the other bound when the
      range would come out inverted. */
  function HandleInputChange(stages: seq<Stage>, stageId: string, field: Field, value: seq<char>): (r: Option<Stage>)
    requires forall k :: 0 <= k < |stages| && stages[k].id == stageId ==> HasField(stages[k], field)
    ensures (r.None? <==> forall k :: 0 <= k < |stages| ==> stages[k].id != stageId)
    ensures (r.Some? ==>
            var st := stages[FindIndex(stages, stageId).value];
            && r.value.id == stageId && r.value.name == st.name && r.value.kind == st.kind
            && (field != ActorsField ==> r.value.actors == st.actors)
            && (field == ActorsField ==> r.value.actors == ParseActors(value))
            && (!field.ProcessMin? && !field.ProcessMax? ==> r.value.processTime == st.processTime)
            && (!field.WaitMin? && !field.WaitMax? ==> r.value.waitTime == st.waitTime)
            && (field.ProcessMin? || field.ProcessMax? ==>
                  r.value.processTime.Some? && r.value.processTime.value.min <= r.value.processTime.value.max)
            && (field.WaitMin? || field.WaitMax? ==>
                  r.value.waitTime.Some? && r.value.waitTime.value.min <= r.value.waitTime.value.max)
            && (field == ProcessMin ==> r.value.processTime.value.min == FloatOr0(value))
            && (field == ProcessMax ==> r.value.processTime.value.max == FloatOr0(value))
            && (field == WaitMin ==> r.value.waitTime.value.min == FloatOr0(value))
            && (field == WaitMax ==> r.value.waitTime.value.max == FloatOr0(value))
            && (field == ProcessMin ==> st.processTime.Some? && r.value.processTime == Some(SetMin(st.processTime.value, FloatOr0(value))))
            && (field == ProcessMax ==> st.processTime.Some? && r.value.processTime == Some(SetMax(st.processTime.value, FloatOr0(value))))
            && (field == WaitMin ==> st.waitTime.Some? && r.value.waitTime == Some(SetMin(st.waitTime.value, FloatOr0(value))))
            && (field == WaitMax ==> st.waitTime.Some? && r.value.waitTime == Some(SetMax(st.waitTime.value, FloatOr0(value)))))
  {
    match FindIndex(stages, stageId)
    case None => None
    case Some(k) =>
      var st := stages[k];
      assert HasField(st, field);
      Some(match field
        case ActorsField => st.(actors := ParseActors(value))
        case ProcessMin => st.(processTime := Some(SetMin(st.processTime.value, FloatOr0(value))))
        case ProcessMax => st.(processTime := Some(SetMax(st.processTime.value, FloatOr0(value))))
        case WaitMin => st.(waitTime := Some(SetMin(st.waitTime.value, FloatOr0(value))))
        case WaitMax => st.(waitTime := Some(SetMax(st.waitTime.value, FloatOr0(value)))))
  }

  /** Passing an edit on to `handleUpdateStage` keeps the pipeline
      well-formed and changes only the edited stage. */
  lemma EditKeepsWellFormed(stages: seq<Stage>, stageId: string, field: Field, value: seq<char>)
    requires WellFormed(stages)
    requires forall k :: 0 <= k < |stages| && stages[k].id == stageId ==> HasField(stages[k], field)
    requires HandleInputChange(stages, stageId, field, value).Some?
    ensures var r := HandleUpdateStage(stages, stageId, HandleInputChange(stages, stageId, field, value).value);
      && WellFormed(r)
      && forall k :: 0 <= k < |r| && stages[k].id != stageId ==> r[k] == stages[k]
  {
    UpdateKeepsWellFormed(stages, stageId, HandleInputChange(stages, stageId, field, value).value);
  }

  // ---- Which stages the form offers ----

  /** `stages.filter(s => s.type === 'process')` */
  function Editable(stages: seq<Stage>): (r: seq<Stage>)
    ensures |r| <= |stages|
  {
    if |stages| == 0 then []
    else
      var rest := Editable(stages[..|stages| - 1]);
      var last := stages[|stages| - 1];
      assert stages == stages[..|stages| - 1] + [last];
      if last.kind == Process then rest + [last] else rest
  }

  /** The form offers every working stage of the list and nothing else. */
  lemma {:induction false} EditableMembers(stages: seq<Stage>)
    ensures forall st :: st in Editable(stages) <==> st in stages && st.kind == Process
    decreases |stages|
  {
    if |stages| > 0 {
      var init := stages[..|stages| - 1];
      EditableMembers(init);
      assert stages == init + [stages[|stages| - 1]];
    }
  }

  lemma EditableSnoc(s: seq<Stage>, k: nat)
    requires k < |s|
    ensures Editable(s[..k + 1]) == Editable(s[..k]) + (if s[k].kind == Process then [s[k]] else [])
  {
    assert s[..k + 1][..k] == s[..k];
  }

  /** In a well-formed pipeline the form offers exactly the four working
      stages, in order: analysis, development, testing, deployment. */
  lemma EditableInPipeline(stages: seq<Stage>)
    requires WellFormed(stages)
    ensures Editable(stages) == stages[1..SinkIndex]
  {
    var s := stages;
    assert s[0].kind == Queue && s[5].kind == Sink;
    assert s[1].kind == Process && s[2].kind == Process && s[3].kind == Process && s[4].kind == Process;
    assert Editable(s[..0]) == [];
    EditableSnoc(s, 0);
    EditableSnoc(s, 1);
    EditableSnoc(s, 2);
    EditableSnoc(s, 3);
    EditableSnoc(s, 4);
    EditableSnoc(s, 5);
    assert s[..6] == s;
    assert s[1..5] == [s[1], s[2], s[3], s[4]];
  }
}
