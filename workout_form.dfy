/**
 * The "Log Workout" form of the personal workouts view: the duration
 * text "hh:mm" read as minutes, the rule that enables its Save button, and
 * the intensity buttons that select or clear a level. Sending the workout
 * is a network call and not part of this model.
 */
module WorkoutForm {
  import opened Wrappers
  import opened Strings
  import opened Numbers
  import opened WorkoutRecords

  /** `durationMinutes` for the duration field (`None`: `null`). The result
      is a JavaScript number, `None` being `NaN`: an empty field is 0, a
      non-numeric hour or minute part is 0, and text without a ":" has no
      minute part, so `hh * 60 + undefined` is `NaN`. */
  function DurationMinutes(durationTime: Option<string>): (r: Option<int>)
    ensures durationTime.None? || durationTime == Some("") ==> r == Some(0)
  {
    if durationTime.None? || durationTime.value == "" then Some(0)
    else ReadClock(Split(durationTime.value, ':'))
  }

  /** `const [hh, mm] = parts.map(Number)` and the rest of `durationMinutes`:
      a missing `mm` is `undefined`, which `Number.isNaN` does not catch. */
  function ReadClock(parts: seq<string>): (r: Option<int>)
    requires |parts| >= 1
  {
    var hh := ToNumber(parts[0]);
    if |parts| < 2 then
      if hh.None? then Some(0) else None
    else
      var mm := ToNumber(parts[1]);
      if hh.None? || mm.None? then Some(0) else Some(hh.value * 60 + mm.value)
  }

  /** Text with one ":" is read part by part. */
  lemma TwoParts(a: string, b: string)
    requires forall i :: 0 <= i < |a| ==> a[i] != ':'
    requires forall i :: 0 <= i < |b| ==> b[i] != ':'
    ensures DurationMinutes(Some(a + ":" + b)) == ReadClock([a, b])
  {
    assert a + ":" + b == a + [':'] + b;
    SplitAtFirst(a, ':', b, c => c == ':');
    SplitNoSep(b, c => c == ':');
    assert Split(a + ":" + b, ':') == [a, b];
  }

  /** The text the time picker produces for `h` hours and `m` minutes is
      read back as `h * 60 + m` minutes. */
  lemma ClockText(h: nat, m: nat)
    ensures DurationMinutes(Some(NatToString(h) + ":" + Pad2(NatToString(m)))) == Some(h * 60 + m)
  {
    var a, b := NatToString(h), Pad2(NatToString(m));
    Pad2Value(m);
    NoColon(a);
    NoColon(b);
    TwoParts(a, b);
    NumberOfNatToString(h);
    NumberOfNatToString(m);
    ReadNumbers(a, b, h, m);
  }

  lemma ReadNumbers(a: string, b: string, x: int, y: int)
    requires ToNumber(a) == Some(x) && ToNumber(b) == Some(y)
    ensures ReadClock([a, b]) == Some(x * 60 + y)
  {
    assert [a, b][0] == a && [a, b][1] == b;
  }

  lemma NoColon(s: string)
    requires AllDigits(s)
    ensures forall i :: 0 <= i < |s| ==> s[i] != ':'
  {
  }

  /** Text with something before a ":" and something that is not a number
      after it counts as 0 minutes. */
  lemma BadMinutePart(a: string, b: string)
    requires forall i :: 0 <= i < |a| ==> a[i] != ':'
    requires forall i :: 0 <= i < |b| ==> b[i] != ':'
    requires ToNumber(b).None?
    ensures DurationMinutes(Some(a + ":" + b)) == Some(0)
  {
    TwoParts(a, b);
    assert [a, b][1] == b;
  }

  /** Text whose hour part (before the first ":", or all of it) is not a
      number counts as 0 minutes, whatever follows. */
  lemma BadHourPart(s: string)
    requires s != "" && ToNumber(Split(s, ':')[0]).None?
    ensures DurationMinutes(Some(s)) == Some(0)
  {
  }

  /** A number without any ":" gives no minutes part, hence `NaN`. */
  lemma HoursOnly(s: string)
    requires s != "" && forall i :: 0 <= i < |s| ==> s[i] != ':'
    requires ToNumber(s).Some?
    ensures DurationMinutes(Some(s)).None?
  {
    SplitNoSep(s, c => c == ':');
  }

  /** The form fields the Save button looks at. */
  datatype Fields = Fields(submitting: bool, dateSet: bool, sport: Option<string>, kind: Option<string>,
                           durationTime: Option<string>, intensity: string)

  /** The `disabled` expression of the Save button: `!durationMinutes` holds
      for 0 and for `NaN`. */
  predicate SaveDisabled(f: Fields) {
    var mins := DurationMinutes(f.durationTime);
    f.submitting || !f.dateSet || !Filled(f.sport) || !Filled(f.kind)
    || mins.None? || mins == Some(0) || f.intensity == ""
  }

  /** With every field filled and a positive "h:mm" duration, Save is
      enabled; an empty duration or a plain number of hours keeps it
      disabled whatever the other fields hold. */
  lemma SaveEnablement(f: Fields, h: nat, m: nat)
    ensures !f.submitting && f.dateSet && Filled(f.sport) && Filled(f.kind) && f.intensity != ""
            && f.durationTime == Some(NatToString(h) + ":" + Pad2(NatToString(m))) && h * 60 + m > 0
            ==> !SaveDisabled(f)
    ensures f.durationTime.None? || f.durationTime == Some("") ==> SaveDisabled(f)
    ensures f.durationTime == Some(NatToString(h)) ==> SaveDisabled(f)
  {
    ClockText(h, m);
    var s := NatToString(h);
    NoColon(s);
    ToNumberDigits(s);
    HoursOnly(s);
  }

  /** A click on the intensity button `level`: the selected level is
      cleared, any other is selected. */
  function Toggled(current: string, level: string): (r: string)
    requires level != ""
    ensures r == "" <==> current == level
    ensures r != "" ==> r == level
  {
    if current == level then "" else level
  }

  /** Two clicks on the same button give back a selection that was empty
      or that level. */
  lemma ToggleTwice(current: string, level: string)
    requires level != "" && (current == "" || current == level)
    ensures Toggled(Toggled(current, level), level) == current
  {
  }

  class LogWorkoutForm {
    var fields: Fields

    /** The form as first shown: not submitting, no date, and empty text
        in every other field, so Save starts disabled. */
    constructor()
      ensures fields == Fields(false, false, Some(""), Some(""), Some(""), "")
      ensures SaveDisabled(fields)
    {
      fields := Fields(false, false, Some(""), Some(""), Some(""), "");
    }

    /** The intensity buttons' `onClick`. */
    method ClickIntensity(level: string)
      requires level != ""
      modifies this
      ensures fields == old(fields).(intensity := Toggled(old(fields).intensity, level))
    {
      fields := fields.(intensity := Toggled(fields.intensity, level));
    }

    /** A new value of the duration picker, or `None` when a save clears
        it to `null`. */
    method SetDuration(t: Option<string>)
      modifies this
      ensures fields == old(fields).(durationTime := t)
    {
      fields := fields.(durationTime := t);
    }
  }
}
