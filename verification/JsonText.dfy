/** How the text of a JSON value changes when it is written back: white space between tokens goes, and
    five characters are replaced by their escapes. */
module JsonText {
  import opened Options

  /** Between tokens, inside a string, or just after a backslash inside a string. */
  datatype Mode = Outside | Inside | Escaped

  const QUOTE := '\U{22}'
  const BACKSLASH := '\U{5c}'

  function Step(m: Mode, c: char): Mode
  {
    match m
    case Outside => if c == QUOTE then Inside else Outside
    case Inside => if c == QUOTE then Outside else if c == BACKSLASH then Escaped else Inside
    case Escaped => Inside
  }

  predicate Special(c: char) { c in {'<', '>', '&', '\U{2028}', '\U{2029}'} }

  predicate Space(c: char) { c in {' ', '\t', '\r', '\n'} }

  predicate CodeDigit(c: char) { '0' <= c <= '9' || 'a' <= c <= 'f' }

  predicate StartsEscape(t: string) { |t| > 1 && t[0] == BACKSLASH && t[1] == 'u' }

  /** The escape JSON has for one of the characters. */
  function Escape(c: char): (r: string)
    requires Special(c)
    ensures |r| == 6 && StartsEscape(r) && forall i :: 2 <= i < 6 ==> CodeDigit(r[i])
  {
    if c == '<' then [BACKSLASH] + "u003c"
    else if c == '>' then [BACKSLASH] + "u003e"
    else if c == '&' then [BACKSLASH] + "u0026"
    else if c == '\U{2028}' then [BACKSLASH] + "u2028"
    else [BACKSLASH] + "u2029"
  }

  function WrittenFrom(t: string, m: Mode): string
  {
    if |t| == 0 then ""
    else
      var rest := WrittenFrom(t[1..], Step(m, t[0]));
      if Special(t[0]) then Escape(t[0]) + rest
      else if m == Outside && Space(t[0]) then rest
      else [t[0]] + rest
  }

  /** The text of a value after it was written. */
  function Written(t: string): string { WrittenFrom(t, Outside) }

  // ---- Which texts stay -----------------------------------------------------------------

  predicate PlainFrom(t: string, m: Mode)
  {
    |t| > 0 ==> !Special(t[0]) && !(m == Outside && Space(t[0])) && PlainFrom(t[1..], Step(m, t[0]))
  }

  /** None of the five characters, and no white space between tokens. */
  predicate Plain(t: string) { PlainFrom(t, Outside) }

  /** A text stays as it is exactly when it is plain, and what was written is plain. */
  lemma StaysExactlyWhen(t: string)
    ensures Written(t) == t <==> Plain(t)
    ensures Plain(Written(t)) && Written(Written(t)) == Written(t)
  {
    WrittenIsPlain(t, Outside);
    if Plain(t) {
      PlainStays(t, Outside);
    }
    PlainStays(Written(t), Outside);
  }

  /** The five characters by their codes. */
  predicate Rewritten(c: char) { c as int in {0x3c, 0x3e, 0x26, 0x2028, 0x2029} }

  /** The four white-space characters by their codes. */
  predicate Blank(c: char) { c as int in {0x20, 0x09, 0x0d, 0x0a} }

  /** A written text has none of the five characters, and one with neither these nor white space stays. */
  lemma WrittenHasNone(t: string)
    ensures forall i :: 0 <= i < |Written(t)| ==> !Rewritten(Written(t)[i])
    ensures (forall i :: 0 <= i < |t| ==> !Rewritten(t[i]) && !Blank(t[i])) ==> Written(t) == t
    ensures (forall i :: 0 <= i < |t| ==> Blank(t[i])) ==> Written(t) == ""
  {
    WrittenIsPlain(t, Outside);
    PlainHasNone(Written(t), Outside);
    if forall i :: 0 <= i < |t| ==> !Rewritten(t[i]) && !Blank(t[i]) {
      NoneIsPlain(t, Outside);
      PlainStays(t, Outside);
    }
    if forall i :: 0 <= i < |t| ==> Blank(t[i]) {
      BlanksGo(t);
    }
  }

  lemma {:induction false} PlainHasNone(t: string, m: Mode)
    requires PlainFrom(t, m)
    ensures forall i :: 0 <= i < |t| ==> !Rewritten(t[i])
  {
    if |t| > 0 {
      PlainHasNone(t[1..], Step(m, t[0]));
      assert forall i :: 1 <= i < |t| ==> t[i] == t[1..][i - 1];
    }
  }

  lemma {:induction false} NoneIsPlain(t: string, m: Mode)
    requires forall i :: 0 <= i < |t| ==> !Rewritten(t[i]) && !Blank(t[i])
    ensures PlainFrom(t, m)
  {
    if |t| > 0 {
      NoneIsPlain(t[1..], Step(m, t[0]));
    }
  }

  lemma {:induction false} BlanksGo(t: string)
    requires forall i :: 0 <= i < |t| ==> Blank(t[i])
    ensures WrittenFrom(t, Outside) == ""
  {
    if |t| > 0 {
      BlanksGo(t[1..]);
    }
  }

  lemma {:induction false} PlainStays(t: string, m: Mode)
    requires PlainFrom(t, m)
    ensures WrittenFrom(t, m) == t
  {
    if |t| > 0 {
      PlainStays(t[1..], Step(m, t[0]));
    }
  }

  lemma {:induction false} WrittenIsPlain(t: string, m: Mode)
    ensures PlainFrom(WrittenFrom(t, m), m)
  {
    if |t| > 0 {
      var rest := WrittenFrom(t[1..], Step(m, t[0]));
      WrittenIsPlain(t[1..], Step(m, t[0]));
      if Special(t[0]) {
        EscapeThen(t[0], rest, m);
      } else if !(m == Outside && Space(t[0])) {
        assert ([t[0]] + rest)[1..] == rest;
      }
    }
  }

  lemma EscapeThen(c: char, rest: string, m: Mode)
    requires Special(c) && PlainFrom(rest, Step(m, c))
    ensures PlainFrom(Escape(c) + rest, m)
  {
    hide Escape;
    var t := Escape(c) + rest;
    var m1 := Step(m, BACKSLASH);
    assert t[1..][1..][4..] == rest;
    DigitsArePlain(t[1..][1..], Step(m1, 'u'), 4);
  }

  /** Digits keep the mode and need no escape. */
  lemma {:induction false} DigitsArePlain(t: string, m: Mode, n: nat)
    requires n <= |t| && m != Escaped && PlainFrom(t[n..], m)
    requires forall i :: 0 <= i < n ==> CodeDigit(t[i])
    ensures PlainFrom(t, m)
  {
    if n > 0 {
      assert t[1..][n - 1..] == t[n..];
      DigitsArePlain(t[1..], m, n - 1);
    } else {
      assert t[0..] == t;
    }
  }

  // ---- What a text means ----------------------------------------------------------------

  /** The character whose escape the text begins with. */
  function Coded(t: string): (c: Option<char>)
    ensures c.Some? ==> Special(c.value) && |t| >= 6 && t[..6] == Escape(c.value)
  {
    if |t| < 6 then None
    else if t[..6] == Escape('<') then Some('<')
    else if t[..6] == Escape('>') then Some('>')
    else if t[..6] == Escape('&') then Some('&')
    else if t[..6] == Escape('\U{2028}') then Some('\U{2028}')
    else if t[..6] == Escape('\U{2029}') then Some('\U{2029}')
    else None
  }

  /** The text without white space between tokens and with those escapes read. */
  function MeaningFrom(t: string, m: Mode): string
  {
    if |t| == 0 then ""
    else if m == Inside && Coded(t).Some? then [Coded(t).value] + MeaningFrom(t[6..], Inside)
    else if m == Outside && Space(t[0]) then MeaningFrom(t[1..], Outside)
    else [t[0]] + MeaningFrom(t[1..], Step(m, t[0]))
  }

  function Meaning(t: string): string { MeaningFrom(t, Outside) }

  /** As in JSON, the five characters only stand inside strings and not behind a backslash. */
  predicate WellFormedFrom(t: string, m: Mode)
  {
    |t| > 0 ==> (Special(t[0]) ==> m == Inside) && WellFormedFrom(t[1..], Step(m, t[0]))
  }

  predicate WellFormed(t: string) { WellFormedFrom(t, Outside) }

  /** Writing a value back does not change what it means, and values that mean the same are written
      the same. */
  lemma WritingKeepsMeaning(a: string, b: string)
    requires WellFormed(a) && WellFormed(b)
    ensures Meaning(Written(a)) == Meaning(a)
    ensures Written(a) == Written(b) <==> Meaning(a) == Meaning(b)
  {
    KeepsMeaning(a, Outside);
    KeepsMeaning(b, Outside);
  }

  lemma {:induction false} KeepsMeaning(t: string, m: Mode)
    requires WellFormedFrom(t, m)
    ensures MeaningFrom(WrittenFrom(t, m), m) == MeaningFrom(t, m)
    ensures WrittenFrom(MeaningFrom(t, m), m) == WrittenFrom(t, m)
    decreases |t|
  {
    hide Escape, Coded, MeaningFrom, WrittenFrom, WellFormedFrom, Special, Space;
    NothingWritten(m);
    if |t| > 0 {
      Unfolds(t, m);
      if m == Inside && Coded(t).Some? {
        var c := Coded(t).value;
        ReadsEscape(t, c);
        KeepsMeaning(t[6..], Inside);
        EscapeMeans(c, WrittenFrom(t[6..], Inside));
        CharacterWritten(c, MeaningFrom(t[6..], Inside));
      } else {
        KeepsMeaning(t[1..], Step(m, t[0]));
        var rest := WrittenFrom(t[1..], Step(m, t[0]));
        var meant := MeaningFrom(t[1..], Step(m, t[0]));
        if Special(t[0]) {
          EscapeMeans(t[0], rest);
          CharacterWritten(t[0], meant);
        } else if !(m == Outside && Space(t[0])) {
          assert ([t[0]] + meant)[1..] == meant && ([t[0]] + rest)[1..] == rest;
          Unfolds([t[0]] + rest, m);
          Unfolds([t[0]] + meant, m);
          if m == Inside && Coded([t[0]] + rest).Some? {
            WasCoded(t, Coded([t[0]] + rest).value);
            IsCoded(t, Coded([t[0]] + rest).value);
          }
        }
      }
    }
  }

  lemma NothingWritten(m: Mode)
    ensures WrittenFrom("", m) == "" && MeaningFrom("", m) == ""
  {
  }

  /** One step of writing and of reading. */
  lemma Unfolds(t: string, m: Mode)
    requires |t| > 0
    ensures var rest := WrittenFrom(t[1..], Step(m, t[0]));
      WrittenFrom(t, m) ==
        if Special(t[0]) then Escape(t[0]) + rest else if m == Outside && Space(t[0]) then rest else [t[0]] + rest
    ensures MeaningFrom(t, m) ==
      if m == Inside && Coded(t).Some? then [Coded(t).value] + MeaningFrom(t[6..], Inside)
      else if m == Outside && Space(t[0]) then MeaningFrom(t[1..], Outside)
      else [t[0]] + MeaningFrom(t[1..], Step(m, t[0]))
    ensures WellFormedFrom(t, m) ==> (Special(t[0]) ==> m == Inside) && WellFormedFrom(t[1..], Step(m, t[0]))
    ensures m == Outside && Space(t[0]) ==> !Special(t[0]) && Step(m, t[0]) == Outside
    ensures Special(t[0]) && m == Inside ==> Step(m, t[0]) == Inside
    ensures m == Inside && Special(t[0]) ==> Coded(t).None?
  {
    if |t| >= 6 {
      assert t[..6][0] == t[0];
    }
  }

  lemma EscapeMeans(c: char, rest: string)
    requires Special(c)
    ensures MeaningFrom(Escape(c) + rest, Inside) == [c] + MeaningFrom(rest, Inside)
  {
    EscapeIsCoded(c, rest);
    hide Coded, Escape;
  }

  lemma CharacterWritten(c: char, rest: string)
    requires Special(c)
    ensures WrittenFrom([c] + rest, Inside) == Escape(c) + WrittenFrom(rest, Inside)
  {
    assert ([c] + rest)[1..] == rest;
    hide Escape;
  }

  lemma IsCoded(t: string, c: char)
    requires Special(c) && |t| >= 6 && t[..6] == Escape(c)
    ensures Coded(t).Some?
  {
    EscapeIsCoded(c, t[6..]);
    assert t == Escape(c) + t[6..];
  }

  lemma EscapeIsCoded(c: char, rest: string)
    requires Special(c)
    ensures Coded(Escape(c) + rest) == Some(c) && (Escape(c) + rest)[6..] == rest
  {
    assert (Escape(c) + rest)[..6] == Escape(c);
    assert Escape('<')[5] == 'c' && Escape('>')[5] == 'e' && Escape('&')[5] == '6';
    assert Escape('\U{2028}')[5] == '8' && Escape('\U{2029}')[5] == '9';
  }

  lemma {:induction false} DigitsWritten(t: string, n: nat)
    requires n <= |t| && forall i :: 0 <= i < n ==> CodeDigit(t[i])
    ensures WrittenFrom(t, Inside) == t[..n] + WrittenFrom(t[n..], Inside)
    ensures WellFormedFrom(t, Inside) ==> WellFormedFrom(t[n..], Inside)
  {
    hide WrittenFrom, WellFormedFrom;
    if n > 0 {
      OneWritten(t, Inside);
      DigitsWritten(t[1..], n - 1);
      assert t[1..][n - 1..] == t[n..] && t[..n] == [t[0]] + t[1..][..n - 1];
      assert [t[0]] + (t[1..][..n - 1] + WrittenFrom(t[n..], Inside)) == t[..n] + WrittenFrom(t[n..], Inside);
    } else {
      assert t[0..] == t;
    }
  }

  /** An escape in the text is written as it is. */
  lemma ReadsEscape(t: string, c: char)
    requires Special(c) && |t| >= 6 && t[..6] == Escape(c)
    ensures WrittenFrom(t, Inside) == Escape(c) + WrittenFrom(t[6..], Inside)
    ensures WellFormedFrom(t, Inside) ==> WellFormedFrom(t[6..], Inside)
  {
    hide WrittenFrom, WellFormedFrom, CodeDigit, Special, Escape;
    var digits := t[2..];
    SixCharacters(t);
    EscapeDigits(c, t);
    DigitsWritten(digits, 4);
    StartWritten(t);
    Regroups(t[0], t[1], digits[..4], WrittenFrom(t[6..], Inside));
  }

  lemma SixCharacters(t: string)
    requires |t| >= 6
    ensures t[2..][4..] == t[6..] && t[..6] == [t[0]] + ([t[1]] + t[2..][..4])
  {
  }

  lemma EscapeDigits(c: char, t: string)
    requires Special(c) && |t| >= 6 && t[..6] == Escape(c)
    ensures StartsEscape(t) && forall i :: 0 <= i < 4 ==> CodeDigit(t[2..][i])
  {
    hide Escape, CodeDigit;
    forall i | 0 <= i < 4 ensures CodeDigit(t[2..][i]) {
      assert t[2..][i] == t[..6][i + 2];
    }
    assert t[0] == t[..6][0] && t[1] == t[..6][1];
  }

  lemma Regroups(a: char, b: char, s: string, rest: string)
    ensures [a] + ([b] + (s + rest)) == [a] + ([b] + s) + rest
  {
  }

  lemma StartWritten(t: string)
    requires StartsEscape(t)
    ensures WrittenFrom(t, Inside) == [t[0]] + ([t[1]] + WrittenFrom(t[2..], Inside))
    ensures WellFormedFrom(t, Inside) ==> WellFormedFrom(t[2..], Inside)
  {
    hide WrittenFrom, WellFormedFrom;
    OneWritten(t, Inside);
    OneWritten(t[1..], Escaped);
    assert t[1..][1..] == t[2..];
  }

  lemma OneWritten(t: string, m: Mode)
    requires |t| > 0 && !Special(t[0]) && !(m == Outside && Space(t[0]))
    ensures WrittenFrom(t, m) == [t[0]] + WrittenFrom(t[1..], Step(m, t[0]))
    ensures WellFormedFrom(t, m) ==> WellFormedFrom(t[1..], Step(m, t[0]))
  {
  }

  lemma SpecialStarts(t: string)
    requires |t| > 0 && |WrittenFrom(t, Inside)| > 0
    ensures Special(t[0]) ==> !CodeDigit(WrittenFrom(t, Inside)[0])
  {
  }

  lemma {:induction false} DigitsRead(t: string, n: nat)
    requires n <= |WrittenFrom(t, Inside)| && forall i :: 0 <= i < n ==> CodeDigit(WrittenFrom(t, Inside)[i])
    ensures n <= |t| && t[..n] == WrittenFrom(t, Inside)[..n]
  {
    if n > 0 {
      var w := WrittenFrom(t, Inside);
      SpecialStarts(t);
      assert w[0] == t[0] && w[1..] == WrittenFrom(t[1..], Inside);
      DigitsRead(t[1..], n - 1);
      assert w[..n] == [w[0]] + w[1..][..n - 1];
      assert t[..n] == [t[0]] + t[1..][..n - 1];
    }
  }

  /** An escape in what was written without one of the characters was in the text. */
  lemma WasCoded(t: string, c: char)
    requires |t| > 0 && Special(c) && !Special(t[0]) && WellFormedFrom(t, Inside)
    requires var w := WrittenFrom(t, Inside); |w| >= 6 && w[..6] == Escape(c)
    ensures |t| >= 6 && t[..6] == Escape(c)
  {
    hide Escape;
    var w := WrittenFrom(t, Inside);
    assert forall i :: 0 <= i < 6 ==> w[i] == Escape(c)[i];
    assert w[1..] == WrittenFrom(t[1..], Escaped);
    assert |t| > 1 && w[2..] == WrittenFrom(t[1..][1..], Inside);
    DigitsRead(t[1..][1..], 4);
    assert t[..6] == [t[0]] + ([t[1]] + t[1..][1..][..4]);
    assert w[..6] == [w[0]] + ([w[1]] + w[2..][..4]);
  }
}
