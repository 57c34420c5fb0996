/** How a revocation's reason is shown: control and invisible characters as escapes, nothing
    lost (agent-core/src/reason.ts). */
module Reason {
  import opened Text

  /** Control characters (Unicode Cc). */
  predicate IsControl(c: char) { c <= '\U{1F}' || '\U{7F}' <= c <= '\U{9F}' }

  /** Format characters (Unicode Cf). */
  predicate IsFormat(c: char) {
    || c == '\U{AD}' || '\U{600}' <= c <= '\U{605}' || c == '\U{61C}' || c == '\U{6DD}' || c == '\U{70F}'
    || '\U{890}' <= c <= '\U{891}' || c == '\U{8E2}' || c == '\U{180E}' || '\U{200B}' <= c <= '\U{200F}'
    || '\U{202A}' <= c <= '\U{202E}' || '\U{2060}' <= c <= '\U{2064}' || '\U{2066}' <= c <= '\U{206F}'
    || c == '\U{FEFF}' || '\U{FFF9}' <= c <= '\U{FFFB}' || c == '\U{110BD}' || c == '\U{110CD}'
    || '\U{13430}' <= c <= '\U{1343F}' || '\U{1BCA0}' <= c <= '\U{1BCA3}' || '\U{1D173}' <= c <= '\U{1D17A}'
    || c == '\U{E0001}' || '\U{E0020}' <= c <= '\U{E007F}'
  }

  /** The other characters a reader would not see. */
  predicate IsInvisible(c: char) {
    || c == '\U{34F}' || '\U{115F}' <= c <= '\U{1160}' || '\U{17B4}' <= c <= '\U{17B5}' || '\U{180B}' <= c <= '\U{180F}'
    || '\U{2028}' <= c <= '\U{2029}' || c == '\U{2800}' || c == '\U{3164}' || '\U{FE00}' <= c <= '\U{FE0F}'
    || c == '\U{FFA0}' || '\U{FFF0}' <= c <= '\U{FFF8}' || '\U{E0000}' <= c <= '\U{E0FFF}'
  }

  predicate IsHidden(c: char) { IsControl(c) || IsFormat(c) || IsInvisible(c) }

  predicate IsEscaped(c: char) { IsHidden(c) || c == '\\' }

  /** Two hexadecimal digits at least. */
  function TwoHex(n: nat): string { if n < 16 then "0" + Numeral(n, 16) else Numeral(n, 16) }

  function EscapeChar(c: char): string {
    if c == '\n' then "\\n" else if c == '\r' then "\\r" else if c == '\t' then "\\t" else if c == '\\' then "\\\\"
    else if c < '\U{80}' then "\\x" + TwoHex(c as nat)
    else "\\u{" + Numeral(c as nat, 16) + "}"
  }

  function ShowChar(c: char): string { if IsEscaped(c) then EscapeChar(c) else [c] }

  function ShowText(reason: string): string {
    if reason == "" then "" else ShowChar(reason[0]) + ShowText(reason[1..])
  }

  const NO_REASON := "no reason given"

  function ShownReason(reason: string): string { if reason == "" then NO_REASON else ShowText(reason) }

  // ----- reading it back -----

  predicate IsScalar(n: nat) { n < 0xD800 || 0xE000 <= n < 0x110000 }

  /** The character an escape at the front of `t` stands for, and the escape's length. */
  function ReadEscape(t: string): Option<(char, nat)>
    requires t != ""
  {
    if |t| < 2 then None
    else if t[1] == 'n' then Some(('\n', 2))
    else if t[1] == 'r' then Some(('\r', 2))
    else if t[1] == 't' then Some(('\t', 2))
    else if t[1] == '\\' then Some(('\\', 2))
    else if t[1] == 'x' then
      if |t| < 4 || !AllHex(t[2..4]) || !IsScalar(NumeralValue(t[2..4], 16)) then None
      else Some((NumeralValue(t[2..4], 16) as char, 4))
    else if t[1] == 'u' then
      var close := IndexOf(t, "}");
      if close < 4 || t[2] != '{' || !AllHex(t[3..close]) || !IsScalar(NumeralValue(t[3..close], 16)) then None
      else Some((NumeralValue(t[3..close], 16) as char, close + 1))
    else None
  }

  /** Undoes the escapes. */
  function Decode(t: string): Option<string>
    decreases |t|
  {
    if t == "" then Some("")
    else if t[0] != '\\' then Prepend([t[0]], Decode(t[1..]))
    else
      match ReadEscape(t)
      case None => None
      case Some((c, n)) => if n == 0 || |t| < n then None else Prepend([c], Decode(t[n..]))
  }

  lemma NumeralLength(n: nat)
    requires n < 256
    ensures |TwoHex(n)| == 2 && AllHex(TwoHex(n)) && NumeralValue(TwoHex(n), 16) == n
  {
    NumeralReadsBack(n, 16);
    if n < 16 {
      assert TwoHex(n)[..1] == "0" && "0"[..0] == "";
      assert Numeral(n, 16)[..0] == "";
    } else {
      assert n / 16 < 16;
    }
  }

  lemma ShortEscapeReadsBack(c: char, rest: string)
    requires c < '\U{80}' && c !in "\n\r\t\\"
    ensures ReadEscape("\\x" + TwoHex(c as nat) + rest) == Some((c, 4))
  {
    var t := "\\x" + TwoHex(c as nat) + rest;
    NumeralLength(c as nat);
    assert t[2..4] == TwoHex(c as nat);
  }

  lemma LongEscapeReadsBack(c: char, rest: string)
    ensures var e := "\\u{" + Numeral(c as nat, 16) + "}";
            ReadEscape(e + rest) == Some((c, |e|))
  {
    var hex := Numeral(c as nat, 16);
    var t := "\\u{" + hex + ['}'] + rest;
    NumeralReadsBack(c as nat, 16);
    assert '}' !in hex by {
      assert forall i | 0 <= i < |hex| :: IsLowerHex(hex[i]);
    }
    FirstOccurrence("\\u{" + hex, '}', rest);
    assert t[3..|hex| + 3] == hex;
    assert t == "\\u{" + hex + "}" + rest;
  }

  lemma EscapeReadsBack(c: char, rest: string)
    ensures var e := EscapeChar(c); e[0] == '\\' && ReadEscape(e + rest) == Some((c, |e|))
  {
    if c in "\n\r\t\\" {
    } else if c < '\U{80}' {
      NumeralLength(c as nat);
      ShortEscapeReadsBack(c, rest);
    } else {
      LongEscapeReadsBack(c, rest);
    }
  }

  /** No reason is lost: the escapes can be undone. */
  lemma {:induction false} ShowTextDecodes(reason: string)
    ensures Decode(ShowText(reason)) == Some(reason)
  {
    if reason != "" {
      var c, rest := reason[0], ShowText(reason[1..]);
      ShowTextDecodes(reason[1..]);
      assert reason == [c] + reason[1..];
      if IsEscaped(c) {
        var e := EscapeChar(c);
        EscapeReadsBack(c, rest);
        assert (e + rest)[|e|..] == rest && (e + rest)[0] == e[0];
      } else {
        assert ([c] + rest)[1..] == rest;
      }
    }
  }

  predicate Visible(s: string) { forall i | 0 <= i < |s| :: !IsHidden(s[i]) }

  lemma VisibleConcat(a: string, b: string)
    requires Visible(a) && Visible(b)
    ensures Visible(a + b)
  {
  }

  lemma HexIsVisible(s: string)
    requires AllHex(s)
    ensures Visible(s)
  {
  }

  lemma EscapeIsVisible(c: char)
    ensures Visible(EscapeChar(c))
  {
    if c in "\n\r\t\\" {
    } else if c < '\U{80}' {
      NumeralLength(c as nat);
      HexIsVisible(TwoHex(c as nat));
      VisibleConcat("\\x", TwoHex(c as nat));
    } else {
      var hex := Numeral(c as nat, 16);
      HexIsVisible(hex);
      VisibleConcat("\\u{", hex);
      VisibleConcat("\\u{" + hex, "}");
    }
  }

  lemma {:induction false} ShowTextIsVisible(reason: string)
    ensures Visible(ShowText(reason))
  {
    if reason != "" {
      ShowTextIsVisible(reason[1..]);
      EscapeIsVisible(reason[0]);
      VisibleConcat(ShowChar(reason[0]), ShowText(reason[1..]));
    }
  }

  /** What is shown holds no control, format or invisible character. */
  lemma ShownIsVisible(reason: string)
    ensures forall i | 0 <= i < |ShownReason(reason)| :: !IsHidden(ShownReason(reason)[i])
  {
    if reason != "" {
      ShowTextIsVisible(reason);
    }
  }

  lemma {:induction false} PlainTextIsShownAsIs(reason: string)
    requires forall i | 0 <= i < |reason| :: !IsEscaped(reason[i])
    ensures ShowText(reason) == reason
  {
    if reason != "" {
      PlainTextIsShownAsIs(reason[1..]);
      assert reason == [reason[0]] + reason[1..];
    }
  }

  lemma ShowTextTellsApart(a: string, b: string)
    ensures ShowText(a) == ShowText(b) <==> a == b
  {
    ShowTextDecodes(a);
    ShowTextDecodes(b);
  }

  predicate Printable(c: char) { ' ' <= c < '\U{7F}' }

  lemma PrintableIsNotHidden(c: char)
    requires Printable(c)
    ensures IsEscaped(c) <==> c == '\\'
  {
  }

  lemma AbsentReasonIsPlain()
    ensures NO_REASON != "" && ShowText(NO_REASON) == NO_REASON
  {
    assert forall i | 0 <= i < |NO_REASON| :: Printable(NO_REASON[i]) && NO_REASON[i] != '\\';
    forall i | 0 <= i < |NO_REASON| ensures !IsEscaped(NO_REASON[i]) {
      PrintableIsNotHidden(NO_REASON[i]);
    }
    PlainTextIsShownAsIs(NO_REASON);
  }

  /** Two reasons look alike only when they are the same, or one is absent and the other spells
      out the words shown for an absent one. */
  lemma ShownReasonTellsApart(a: string, b: string)
    ensures ShownReason(a) == ShownReason(b)
       <==> a == b || (a == "" && b == NO_REASON) || (a == NO_REASON && b == "")
  {
    var none := NO_REASON;
    AbsentReasonIsPlain();
    ShowTextTellsApart(a, b);
    ShowTextTellsApart(a, none);
    ShowTextTellsApart(none, b);
  }

  // ----- what a signer writes -----

  datatype ReasonProblem = NotAscii | ControlCharacter | TooLong

  const MAX_BYTES := 128

  /** Why a reason is not one to sign. */
  function AuthoredReasonProblem(reason: string): Option<ReasonProblem> {
    if exists i | 0 <= i < |reason| :: reason[i] > '\U{7F}' then Some(NotAscii)
    else if exists i | 0 <= i < |reason| :: IsControl(reason[i]) then Some(ControlCharacter)
    else if |reason| > MAX_BYTES then Some(TooLong)
    else None
  }

  /** `reason` with each backslash doubled. */
  function BackslashesDoubled(reason: string): string {
    if reason == "" then ""
    else (if reason[0] == '\\' then "\\\\" else [reason[0]]) + BackslashesDoubled(reason[1..])
  }

  lemma PrintableIsShown(c: char)
    requires Printable(c)
    ensures ShowChar(c) == if c == '\\' then "\\\\" else [c]
  {
  }

  lemma {:induction false} PrintableTextIsShown(reason: string)
    requires forall i | 0 <= i < |reason| :: Printable(reason[i])
    ensures ShowText(reason) == BackslashesDoubled(reason)
  {
    if reason != "" {
      PrintableTextIsShown(reason[1..]);
      PrintableIsShown(reason[0]);
    }
  }

  /** What a signer may write is printable ASCII of at most 128 characters, and is shown as it is
      but for doubled backslashes. */
  lemma AuthoredReasonIsShownPlainly(reason: string)
    ensures AuthoredReasonProblem(reason).None?
       <==> |reason| <= 128 && forall i | 0 <= i < |reason| :: Printable(reason[i])
    ensures AuthoredReasonProblem(reason).None? ==> ShowText(reason) == BackslashesDoubled(reason)
  {
    if AuthoredReasonProblem(reason).None? {
      forall i | 0 <= i < |reason| ensures Printable(reason[i]) {
        assert reason[i] <= '\U{7F}' && !IsControl(reason[i]);
      }
      PrintableTextIsShown(reason);
    }
  }
}
