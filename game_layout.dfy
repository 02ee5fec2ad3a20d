/** The frame around every screen: the `MM:SS` countdown display, the
    critical-time warning, which screens show the header, and the hidden
    seven-click counter on the title. */
module Layout {
  import opened Types
  import opened Strings

  /** `formatTime(seconds)`: whole minutes and remaining seconds, each at least
      two digits, joined by a colon. */
  function FormatTime(seconds: nat): (r: string)
    ensures |r| >= 5 && r[|r| - 3] == ':'
    ensures AllDigits(r[..|r| - 3]) && AllDigits(r[|r| - 2..])
  {
    var mins := PadStart2(Decimal(seconds / 60));
    var secs := PadStart2(Decimal(seconds % 60));
    assert |secs| == 2;
    var r := mins + ":" + secs;
    assert r[..|r| - 3] == mins && r[|r| - 2..] == secs;
    r
  }

  /** Reads an `M…M:SS` display back into seconds; a seconds field of 60 or
      more is not a display. */
  function ParseTime(t: string): Option<nat> {
    if |t| >= 4 && t[|t| - 3] == ':' && AllDigits(t[..|t| - 3]) && AllDigits(t[|t| - 2..])
       && ValueOf(t[|t| - 2..]) < 60
    then Some(ValueOf(t[..|t| - 3]) * 60 + ValueOf(t[|t| - 2..]))
    else None
  }

  /** Reading a joined display: the two digit fields around the colon. */
  lemma ParseJoined(mins: string, secs: string)
    requires AllDigits(mins) && AllDigits(secs) && |mins| >= 1 && |secs| == 2
    ensures ParseTime(mins + ":" + secs) ==
      if ValueOf(secs) < 60 then Some(ValueOf(mins) * 60 + ValueOf(secs)) else None
  {
    var r := mins + ":" + secs;
    assert r[..|r| - 3] == mins && r[|r| - 2..] == secs && r[|r| - 3] == ':';
  }

  /** The display parses back to the number of seconds shown, for every time:
      the field before the colon reads as the whole minutes and the field
      after it as the remaining seconds. */
  lemma FormatTimeRoundTrip(seconds: nat)
    ensures ParseTime(FormatTime(seconds)) == Some(seconds)
    ensures var r := FormatTime(seconds);
      ValueOf(r[..|r| - 3]) == seconds / 60 && ValueOf(r[|r| - 2..]) == seconds % 60
  {
    var d1, d2 := Decimal(seconds / 60), Decimal(seconds % 60);
    var r := FormatTime(seconds);
    assert r[..|r| - 3] == PadStart2(d1) && r[|r| - 2..] == PadStart2(d2);
    ValueOfDecimal(seconds / 60);
    ValueOfDecimal(seconds % 60);
    PadKeepsValue(d1);
    PadKeepsValue(d2);
    ParseJoined(PadStart2(d1), PadStart2(d2));
  }

  /** Below one hundred minutes the display is exactly `MM:SS`. */
  lemma FormatTimeWidth(seconds: nat)
    ensures |FormatTime(seconds)| == 5 <==> seconds < 6000
  {
    var d1 := Decimal(seconds / 60);
    assert |FormatTime(seconds)| == |PadStart2(d1)| + 3;
  }

  /** `isCritical`: under a minute left. */
  predicate IsCritical(timeLeft: int) {
    timeLeft < 60
  }

  /** The minutes field reads `00` exactly when no whole minute is left. */
  lemma MinutesZero(m: nat)
    ensures PadStart2(Decimal(m))[..2] == "00" <==> m == 0
  {
    var d := Decimal(m);
    if m == 0 {
      assert d == "0";
    } else if m < 10 {
      assert d == [DigitChar(m)];
      assert PadStart2(d)[1] == d[0] != '0';
    } else {
      assert PadStart2(d)[0] == d[0] != '0';
    }
  }

  /** The critical warning is on exactly when the display reads `00:SS`. */
  lemma CriticalIffZeroMinutes(timeLeft: nat)
    ensures IsCritical(timeLeft) <==> FormatTime(timeLeft)[..3] == "00:"
  {
    var mins := PadStart2(Decimal(timeLeft / 60));
    var r := FormatTime(timeLeft);
    assert r == mins + ":" + PadStart2(Decimal(timeLeft % 60));
    MinutesZero(timeLeft / 60);
    assert IsCritical(timeLeft) <==> timeLeft / 60 == 0;
    assert r[..3][..2] == mins[..2];
    if |mins| == 2 {
      assert r[..3] == mins + ":" && mins[..2] == mins;
    } else {
      assert r[..3][2] == mins[2] != ':';
    }
  }

  /** `isActiveView(view)`: play is under way on this screen. */
  predicate IsActiveView(v: View) {
    v != Landing && v != Success && v != Failure
  }

  /** Where the header (clock and title) is drawn; the layout tests this
      condition inline rather than through `isActiveView`. */
  predicate HeaderShown(v: View) {
    v != Landing && v != Success && v != Failure
  }

  /** The header and the active-play test both pick out exactly the briefing,
      the hub and the six rooms. */
  lemma HeaderOnActiveViews(v: View)
    ensures HeaderShown(v) <==> v == Rules || v == Hub || v.IsRoom()
    ensures IsActiveView(v) <==> v == Rules || v == Hub || v.IsRoom()
  {
  }

  /** Clicks on the title that open the secret log. */
  const SECRET_CLICKS: nat := 7

  /** One counted title click: the counter after it, and whether it opened the
      secret log. */
  function TitleStep(clicks: nat): (nat, bool) {
    if clicks + 1 >= SECRET_CLICKS then (0, true) else (clicks + 1, false)
  }

  /** `n` counted clicks from counter `c`: the counter after them and how many
      times the secret log was opened. */
  function TitleClicks(c: nat, n: nat): (nat, nat)
    decreases n
  {
    if n == 0 then (c, 0)
    else
      var step := TitleStep(c);
      var rest := TitleClicks(step.0, n - 1);
      (rest.0, rest.1 + if step.1 then 1 else 0)
  }

  /** Counted clicks behave as a counter modulo seven: the log opens on every
      seventh click and the counter never leaves 0..6. */
  lemma {:induction false} TitleClicksModSeven(c: nat, n: nat)
    requires c < SECRET_CLICKS
    ensures TitleClicks(c, n).0 == (c + n) % SECRET_CLICKS
    ensures TitleClicks(c, n).1 == (c + n) / SECRET_CLICKS
    decreases n
  {
    if n > 0 {
      TitleClicksModSeven(TitleStep(c).0, n - 1);
    }
  }

  class GameLayout {
    var isMuted: bool
    var titleClicks: nat
    var showSecretModal: bool

    ghost predicate Valid()
      reads this
    {
      titleClicks < SECRET_CLICKS
    }

    constructor (muted: bool)
      ensures Valid()
      ensures isMuted == muted && titleClicks == 0 && !showSecretModal
    {
      isMuted := muted;
      titleClicks := 0;
      showSecretModal := false;
    }

    /** `handleTitleClick`: ignored on the landing screen; otherwise the click
        is counted, and the seventh opens the secret log. */
    method HandleTitleClick(view: View)
      requires Valid()
      modifies this
      ensures Valid() && isMuted == old(isMuted)
      ensures view == Landing ==> titleClicks == old(titleClicks) && showSecretModal == old(showSecretModal)
      ensures view != Landing ==>
        (titleClicks, showSecretModal) ==
          (TitleStep(old(titleClicks)).0, old(showSecretModal) || TitleStep(old(titleClicks)).1)
      ensures view != Landing ==> titleClicks == (old(titleClicks) + 1) % SECRET_CLICKS
    {
      if view == Landing {
        return;
      }
      if titleClicks + 1 >= SECRET_CLICKS {
        showSecretModal := true;
        titleClicks := 0;
      } else {
        titleClicks := titleClicks + 1;
      }
    }

    /** The close button of the secret log. */
    method CloseSecret()
      requires Valid()
      modifies this`showSecretModal
      ensures Valid() && !showSecretModal
    {
      showSecretModal := false;
    }

    /** `handleMuteToggle`: flips the sound flag. */
    method HandleMuteToggle()
      requires Valid()
      modifies this`isMuted
      ensures Valid() && isMuted == !old(isMuted)
    {
      isMuted := !isMuted;
    }
  }
}
