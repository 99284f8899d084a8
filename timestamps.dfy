/** Rendering an Org timestamp back to text (`renderAsText`). Every field is
    kept as the text it was parsed from; the empty string stands for a field
    that is absent (the source reads an optional field as present exactly
    when it is truthy). */
module Timestamps {
  datatype Timestamp = Timestamp(
    isActive: bool,
    year: string, month: string, day: string,
    dayName: string,
    startHour: string, startMinute: string,
    endHour: string, endMinute: string,
    repeaterType: string, repeaterValue: string, repeaterUnit: string,
    delayType: string, delayValue: string, delayUnit: string)

  function Open(t: Timestamp): char { if t.isActive then '<' else '[' }
  function Close(t: Timestamp): char { if t.isActive then '>' else ']' }

  function DatePart(t: Timestamp): string { t.year + "-" + t.month + "-" + t.day }
  function DayNamePart(t: Timestamp): string { if t.dayName != "" then " " + t.dayName else "" }
  function StartPart(t: Timestamp): string
  {
    if t.startHour != "" then " " + t.startHour + ":" + t.startMinute else ""
  }
  function EndPart(t: Timestamp): string
  {
    if t.endHour != "" then "-" + t.endHour + ":" + t.endMinute else ""
  }
  function RepeaterPart(t: Timestamp): string
  {
    if t.repeaterType != "" then " " + t.repeaterType + t.repeaterValue + t.repeaterUnit else ""
  }
  function DelayPart(t: Timestamp): string
  {
    if t.delayType != "" then " " + t.delayType + t.delayValue + t.delayUnit else ""
  }

  /** The optional parts after the date, in the fixed order day name, start
      time, end time, repeater, delay. */
  function Optional(t: Timestamp): string
  {
    DayNamePart(t) + StartPart(t) + EndPart(t) + RepeaterPart(t) + DelayPart(t)
  }

  /** `renderAsText`: the date and the optional parts between brackets that
      say whether the timestamp is active. */
  function RenderAsText(t: Timestamp): (r: string)
    ensures |r| == |DatePart(t)| + |Optional(t)| + 2
    ensures r[0] == (if t.isActive then '<' else '[')
    ensures r[|r| - 1] == (if t.isActive then '>' else ']')
  {
    [Open(t)] + Body(t) + [Close(t)]
  }

  /** What lies between the brackets. */
  function Body(t: Timestamp): string
  {
    DatePart(t) + Optional(t)
  }

  /** The date always comes first inside the brackets, the optional parts after it. */
  lemma DateFirst(t: Timestamp)
    ensures var r := RenderAsText(t);
      var n := |DatePart(t)|;
      r[1..1 + n] == t.year + "-" + t.month + "-" + t.day && r[1 + n..|r| - 1] == Optional(t)
  {
    Split(Open(t), DatePart(t), Optional(t), Close(t));
  }

  /** Slicing a bracketed two-part text. */
  lemma Split(o: char, d: string, opt: string, c: char)
    ensures var r := [o] + (d + opt) + [c];
      r[1..1 + |d|] == d && r[1 + |d|..|r| - 1] == opt
  {
    var r := [o] + (d + opt) + [c];
    assert r[1..|r| - 1] == d + opt;
  }

  /** Switching between active and inactive changes the brackets and nothing else. */
  lemma ToggleOnlyBrackets(t: Timestamp)
    ensures var r := RenderAsText(t);
      var r' := RenderAsText(t.(isActive := !t.isActive));
      |r'| == |r| && r'[1..|r'| - 1] == r[1..|r| - 1] && r'[0] != r[0] && r'[|r'| - 1] != r[|r| - 1]
  {
    var t' := t.(isActive := !t.isActive);
    assert Body(t') == Body(t);
    Bracketed(Open(t), Body(t), Close(t));
    Bracketed(Open(t'), Body(t), Close(t'));
  }

  lemma Bracketed(o: char, body: string, c: char)
    ensures ([o] + body + [c])[1..|body| + 1] == body
  {
  }

  /** With no optional field the text is the bracketed date alone. */
  lemma DateOnly(t: Timestamp)
    requires t.dayName == "" && t.startHour == "" && t.endHour == "" && t.repeaterType == "" && t.delayType == ""
    ensures RenderAsText(t) == [Open(t)] + t.year + "-" + t.month + "-" + t.day + [Close(t)]
  {
    assert Optional(t) == [];
    assert DatePart(t) + [] == DatePart(t);
  }

  /** The end time is rendered as `-HH:MM` right after the start time: removing
      it takes out exactly that piece and leaves the text before and after it. */
  lemma EndTimeAfterStart(t: Timestamp)
    requires t.endHour != ""
    ensures var before := [Open(t)] + DatePart(t) + DayNamePart(t) + StartPart(t);
      var after := RepeaterPart(t) + DelayPart(t) + [Close(t)];
      RenderAsText(t) == before + ("-" + t.endHour + ":" + t.endMinute) + after &&
      RenderAsText(t.(endHour := "")) == before + after
  {
    var t' := t.(endHour := "");
    var o, c := [Open(t)], [Close(t)];
    var d, dn, sp, rp, dp := DatePart(t), DayNamePart(t), StartPart(t), RepeaterPart(t), DelayPart(t);
    assert EndPart(t) == "-" + t.endHour + ":" + t.endMinute;
    assert EndPart(t') == [];
    assert [Open(t')] == o && [Close(t')] == c;
    assert DatePart(t') == d && DayNamePart(t') == dn && StartPart(t') == sp;
    assert RepeaterPart(t') == rp && DelayPart(t') == dp;
    Regroup(o, d, dn, sp, EndPart(t), rp, dp, c);
    Regroup(o, d, dn, sp, [], rp, dp, c);
  }

  /** Associativity for the concatenation that renders a timestamp. */
  lemma Regroup(o: string, d: string, dn: string, sp: string, ep: string, rp: string, dp: string, c: string)
    ensures o + (d + (dn + sp + ep + rp + dp)) + c == (o + d + dn + sp) + ep + (rp + dp + c)
  {
  }
}
