/**
  The countdown's arithmetic: how `update_timer_display` renders the seconds left,
  how the custom-timer entry is read, and the completion message.
 */
module Clock {
  import opened Wrappers
  import opened PyText

  /** The length of a default session and of the reset timer, in minutes. */
  const DefaultMinutes: nat := 50
  /** The largest custom session the dialog accepts: 24 hours. */
  const MaxCustomMinutes: nat := 1440

  /** `f"{t // 60:02d}:{t % 60:02d}"`: the timer label for `t` seconds left. */
  function Render(t: nat): (r: string)
    ensures |r| >= 5 && r[|r| - 3] == ':'
    ensures forall k :: 0 <= k < |r| && k != |r| - 3 ==> IsDigit(r[k])
    ensures t < 6000 <==> |r| == 5
    ensures |r| == 5 || r[0] != '0'
  {
    var minutes := Pad2(t / 60);
    var seconds := Pad2(t % 60);
    var r := minutes + ":" + seconds;
    assert r[..|r| - 3] == minutes && r[|r| - 2..] == seconds;
    TwoDigitsBelowHundred(minutes);
    r
  }

  lemma TwoDigitsBelowHundred(s: string)
    requires AllDigits(s)
    ensures |s| <= 2 ==> DigitsValue(s) < 100
  {
    if |s| == 2 {
      assert s[..1][..0] == [];
    } else if |s| == 1 {
      assert s[..0] == [];
    }
  }

  /** A label's shape: digits, a colon, then exactly two digits. */
  predicate IsLabel(text: string) {
    |text| >= 4 && text[|text| - 3] == ':' && AllDigits(text[..|text| - 3]) && AllDigits(text[|text| - 2..])
  }

  /** The seconds a label stands for: minutes × 60 plus seconds. */
  function ReadLabel(text: string): nat
    requires IsLabel(text)
  {
    DigitsValue(text[..|text| - 3]) * 60 + DigitsValue(text[|text| - 2..])
  }

  /**
    The label states `t` exactly: the part after the colon is a seconds count below 60,
    and reading the label back gives `t`.
   */
  lemma {:induction false} RenderDecodes(t: nat)
    ensures IsLabel(Render(t)) && ReadLabel(Render(t)) == t
    ensures var r := Render(t); DigitsValue(r[|r| - 2..]) < 60
  {
    var minutes, seconds := Pad2(t / 60), Pad2(t % 60);
    LabelParts(minutes, seconds);
    assert Render(t) == minutes + ":" + seconds;
    DivMod60(t);
  }

  /** A label built from digit strings splits back into them. */
  lemma LabelParts(minutes: string, seconds: string)
    requires |minutes| >= 1 && AllDigits(minutes) && |seconds| == 2 && AllDigits(seconds)
    ensures var r := minutes + ":" + seconds;
            IsLabel(r) && r[..|r| - 3] == minutes && r[|r| - 2..] == seconds
  {
    var r := minutes + ":" + seconds;
    assert r[..|r| - 3] == minutes;
    assert r[|r| - 2..] == seconds;
  }

  lemma DivMod60(t: nat)
    ensures (t / 60) * 60 + t % 60 == t && t % 60 < 60
  {
  }

  /** Different times never show the same label. */
  lemma RenderInjective(t1: nat, t2: nat)
    requires Render(t1) == Render(t2)
    ensures t1 == t2
  {
    RenderDecodes(t1);
    RenderDecodes(t2);
  }

  /** Right after a timer is set to `m` minutes the label reads `m` (zero-filled), a colon and `00`. */
  lemma {:induction false} RenderWholeMinutes(m: nat)
    ensures Render(m * 60) == Pad2(m) + ":00"
  {
    assert (m * 60) / 60 == m && (m * 60) % 60 == 0;
    assert NatToString(0) == "0";
  }

  /** How `apply_custom_timer` reads the dialog's entry. */
  datatype CustomEntry =
    | Accepted(minutes: nat)   // a whole number in 1..1440: the timer is set
    | OutOfRange               // a whole number outside 1..1440: "Invalid Time"
    | NotANumber               // `int()` raised ValueError: "Invalid Input"

  /** `int(entry.strip())`, then the 1..1440 range check. */
  function ReadCustomMinutes(entry: string): (r: CustomEntry)
    ensures r.NotANumber? <==> ParseInt(Strip(entry)).None?
    ensures r.Accepted? <==> ParseInt(Strip(entry)).Some? && 1 <= ParseInt(Strip(entry)).value <= MaxCustomMinutes
    ensures r.Accepted? ==> ParseInt(Strip(entry)) == Some(r.minutes as int)
  {
    match ParseInt(Strip(entry))
    case None => NotANumber
    case Some(m) => if m > 0 && m <= MaxCustomMinutes as int then Accepted(m as nat) else OutOfRange
  }

  /** Every minute count the dialog allows is accepted, whatever whitespace surrounds it. */
  lemma CustomEntryAccepted(before: string, m: nat, after: string)
    requires 1 <= m <= MaxCustomMinutes
    requires AllBlank(StrBlanks, before) && AllBlank(StrBlanks, after)
    ensures ReadCustomMinutes(before + NatToString(m) + after) == Accepted(m)
  {
    var d := NatToString(m);
    StripIgnoresPadding(StrBlanks, before, d, after);
    NumberUnpadded(StrBlanks, d);
    StripUnpadded(StrBlanks, d);
    DigitsParse(d);
  }

  /** `f"{minutes}-minute focus session completed!"` */
  function CompletionMessage(minutes: nat): string {
    NatToString(minutes) + "-minute focus session completed!"
  }

  /** The message opens with the session's length: read up to its first `-`, it is the minute count. */
  lemma {:induction false} CompletionMessageNamesMinutes(minutes: nat)
    ensures ParseInt(Split(CompletionMessage(minutes), '-')[0]) == Some(minutes)
  {
    var d := NatToString(minutes);
    var tail := "-minute focus session completed!";
    assert '-' !in d;
    SplitSeparatorFree(d, tail, '-');
    assert Split(tail, '-')[0] == [];
    assert d + [] == d;
    DigitsParse(d);
  }
}
