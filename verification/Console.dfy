/** Cutting a coloured status line to the width of the terminal. */
module Console {
  const ESC: char := '\U{1B}'
  const RESET: string := [ESC, '[', '0', 'm']

  /** Where a scan is with respect to escape sequences. */
  datatype Mode = Plain | AfterEsc | InCsi

  function Next(m: Mode, c: char): Mode {
    match m
    case Plain => if c == ESC then AfterEsc else Plain
    case AfterEsc => if c == '[' then InCsi else Plain
    case InCsi => if '\U{40}' <= c <= '\U{7E}' then Plain else InCsi
  }

  predicate Shows(m: Mode, c: char) {
    m == Plain && c != ESC
  }

  function ModeAfter(s: string, m: Mode): Mode {
    if s == "" then m else ModeAfter(s[1..], Next(m, s[0]))
  }

  /** What a terminal shows of a string: everything but the escape sequences. */
  function Visible(s: string, m: Mode): string {
    if s == "" then ""
    else (if Shows(m, s[0]) then [s[0]] else "") + Visible(s[1..], Next(m, s[0]))
  }

  lemma {:induction false} ModeAppend(a: string, b: string, m: Mode)
    ensures ModeAfter(a + b, m) == ModeAfter(b, ModeAfter(a, m))
    ensures Visible(a + b, m) == Visible(a, m) + Visible(b, ModeAfter(a, m))
  {
    if a == "" {
      assert a + b == b;
    } else {
      assert (a + b)[1..] == a[1..] + b;
      ModeAppend(a[1..], b, Next(m, a[0]));
    }
  }

  /** What an escape sequence is, and that nothing of it shows: ESC, '[', any characters
      that end no sequence, and one from '@' to '~' that does; or ESC and any other
      character. What comes after shows as if the sequence were not there. */
  lemma EscapesDoNotShow(params: string, final: char, other: char, rest: string)
    requires forall i :: 0 <= i < |params| ==> !('@' <= params[i] <= '~')
    requires '@' <= final <= '~' && other != '['
    ensures Visible([ESC, '['] + params + [final] + rest, Plain) == Visible(rest, Plain)
    ensures Visible([ESC, other] + rest, Plain) == Visible(rest, Plain)
  {
    hide Visible;
    var inside := params + [final] + rest;
    InsideShowsNothing(params, final, rest);
    VisibleCons('[', inside, AfterEsc);
    VisibleCons(ESC, ['['] + inside, Plain);
    assert [ESC, '['] + params + [final] + rest == [ESC] + (['['] + inside);
    VisibleCons(other, rest, AfterEsc);
    VisibleCons(ESC, [other] + rest, Plain);
    assert [ESC, other] + rest == [ESC] + ([other] + rest);
  }

  lemma VisibleCons(c: char, rest: string, m: Mode)
    ensures Visible([c] + rest, m) == if Shows(m, c) then [c] + Visible(rest, Next(m, c)) else Visible(rest, Next(m, c))
  {
    assert ([c] + rest)[1..] == rest;
  }

  lemma {:induction false} InsideShowsNothing(params: string, final: char, rest: string)
    requires forall i :: 0 <= i < |params| ==> !('@' <= params[i] <= '~')
    requires '@' <= final <= '~'
    ensures Visible(params + [final] + rest, InCsi) == Visible(rest, Plain)
  {
    hide Visible;
    if params == "" {
      assert params + [final] + rest == [final] + rest;
      VisibleCons(final, rest, InCsi);
    } else {
      InsideShowsNothing(params[1..], final, rest);
      VisibleCons(params[0], params[1..] + [final] + rest, InCsi);
      assert params + [final] + rest == [params[0]] + (params[1..] + [final] + rest);
    }
  }

  /** Anything else shows. */
  lemma TextShows(c: char, rest: string)
    requires c != ESC
    ensures Visible([c] + rest, Plain) == [c] + Visible(rest, Plain)
  {
    VisibleCons(c, rest, Plain);
  }

  lemma OneMore(a: string, c: char)
    ensures ModeAfter(a + [c], Plain) == Next(ModeAfter(a, Plain), c)
    ensures Visible(a + [c], Plain) == Visible(a, Plain) + (if Shows(ModeAfter(a, Plain), c) then [c] else "")
  {
    ModeAppend(a, [c], Plain);
    assert [c][1..] == "";
    assert Visible("", Next(ModeAfter(a, Plain), c)) == "";
  }

  lemma ResetShowsNothing(a: string)
    requires ModeAfter(a, Plain) == Plain
    ensures Visible(a + RESET, Plain) == Visible(a, Plain) && ModeAfter(a + RESET, Plain) == Plain
  {
    hide Visible;
    hide ModeAfter;
    OneMore(a, ESC);
    OneMore(a + [ESC], '[');
    OneMore(a + [ESC, '['], '0');
    OneMore(a + [ESC, '[', '0'], 'm');
    assert a + [ESC] + ['['] == a + [ESC, '['];
    assert a + [ESC, '['] + ['0'] == a + [ESC, '[', '0'];
    assert a + [ESC, '[', '0'] + ['m'] == a + RESET;
  }

  /** A scan that is not in plain text has met an escape. */
  lemma {:induction false} EscapeSeen(a: string)
    requires ESC !in a
    ensures ModeAfter(a, Plain) == Plain
  {
    if a != "" {
      assert a[0] in a;
      EscapeSeen(a[1..]);
    }
  }

  /** The cut falls in plain text, right before a character that would show. */
  ghost predicate CutAt(s: string, max: int, cut: nat) {
    && cut < |s|
    && ModeAfter(s[..cut], Plain) == Plain && s[cut] != ESC
    && |Visible(s[..cut], Plain)| == max
  }

  /** `truncateVisible`. What shows of the result is the first `max` characters that
      show of the input; nothing is cut inside an escape sequence; a line that fits is
      returned as it is; and a cut line that held an escape ends with a reset. */
  method TruncateVisible(s: string, max: int) returns (out: string)
    ensures max <= 0 ==> out == ""
    ensures max > 0 && |Visible(s, Plain)| <= max ==> out == s
    ensures max > 0 && |Visible(s, Plain)| > max ==>
              exists cut: nat :: CutAt(s, max, cut) && out == s[..cut] + (if ESC in s[..cut] then RESET else "")
    ensures Visible(out, Plain) == if max <= 0 then "" else if |Visible(s, Plain)| <= max then Visible(s, Plain)
                                   else Visible(s, Plain)[..max]
    ensures max > 0 && |Visible(s, Plain)| > max ==> ModeAfter(out, Plain) == Plain
  {
    if max <= 0 {
      return "";
    }
    out := "";
    var visible := 0;
    var sawEscape := false;
    var state := Plain;
    for i := 0 to |s|
      invariant out == s[..i]
      invariant state == ModeAfter(out, Plain)
      invariant visible == |Visible(out, Plain)| <= max
      invariant sawEscape <==> ESC in out
    {
      var r := s[i];
      assert s[..i + 1] == s[..i] + [r];
      OneMore(out, r);
      if state == Plain && r != ESC {
        if visible >= max {
          CutPrefix(s, i);
          ResetShowsNothing(out);
          assert CutAt(s, max, i);
          if sawEscape {
            out := out + RESET;
          } else {
            assert out + "" == out;
          }
          return out;
        }
        visible := visible + 1;
      } else if state == Plain {
        sawEscape := true;
      } else if !sawEscape {
        EscapeSeen(out);
      }
      state := Next(state, r);
      out := out + [r];
    }
    assert s[..|s|] == s;
  }

  lemma CutPrefix(s: string, i: nat)
    requires i < |s| && ModeAfter(s[..i], Plain) == Plain && s[i] != ESC
    ensures Visible(s[..i], Plain) < Visible(s, Plain)
  {
    assert s == s[..i] + s[i..];
    ModeAppend(s[..i], s[i..], Plain);
    assert Visible(s[i..], Plain)[0] == s[i];
  }
}
