/** The cards overlay: four cards, each sweeping once from below the viewport
    to above it while the scroll progress crosses its own window, and a
    "Dive In" button that fades in after the last card has left. */
module CardsSection {
  import opened ScrollMath

  /** One card's timeline: its journey runs while progress goes from `start`
      to `end`. */
  datatype Card = Card(tag: string, start: real, end: real)

  const Cards: seq<Card> := [
    Card("Design", 0.14, 0.38),
    Card("Work", 0.27, 0.51),
    Card("Projects", 0.40, 0.64),
    Card("Connect", 0.53, 0.77)
  ]

  /** The button starts to appear at this progress ... */
  const BtnInStart: real := 0.80
  /** ... and is fully shown this much progress later. */
  const BtnInWindow: real := 0.07

  /** How far a card is through its journey, from 0 at `start` to 1 at
      `end`: `clamp((p - start) / (end - start), 0, 1)`. */
  function Journey(c: Card, p: real): (t: real)
    requires c.start < c.end
    ensures 0.0 <= t <= 1.0
    ensures p <= c.start ==> t == 0.0
    ensures p >= c.end ==> t == 1.0
  {
    var w := c.end - c.start;
    assert p <= c.start ==> (p - c.start) / w <= 0.0;
    assert p >= c.end ==> (p - c.start) / w >= 1.0 by {
      if p >= c.end {
        QuotientAtLeastOne(p - c.start, w);
      }
    }
    Clamp01((p - c.start) / w)
  }

  /** A card's journey never runs backwards as the page scrolls down. */
  lemma JourneyMonotone(c: Card, p: real, q: real)
    requires c.start < c.end && p <= q
    ensures Journey(c, p) <= Journey(c, q)
  {
    var w := c.end - c.start;
    QuotientMonotone(p - c.start, q - c.start, w);
    Clamp01Monotone((p - c.start) / w, (q - c.start) / w);
  }

  /** The vertical offset at journey position t, in `vh` (hundredths of the
      viewport height): a single linear sweep from +110vh (below the
      viewport) to -110vh (above it). */
  function Offset(t: real): (ty: real)
    requires 0.0 <= t <= 1.0
    ensures -110.0 <= ty <= 110.0
    ensures t == 0.0 ==> ty == 110.0
    ensures t == 1.0 ==> ty == -110.0
  {
    110.0 - t * 220.0
  }

  /** The card sits below the viewport before its window, above it after,
      and moves up, never down, as progress grows. */
  lemma OffsetSweepsUp(c: Card, p: real, q: real)
    requires c.start < c.end && p <= q
    ensures Offset(Journey(c, q)) <= Offset(Journey(c, p))
    ensures p <= c.start ==> Offset(Journey(c, p)) == 110.0
    ensures q >= c.end ==> Offset(Journey(c, q)) == -110.0
  {
    JourneyMonotone(c, p, q);
  }

  /** The strict visibility window `start < p < end`: only a card with a
      non-empty window is ever visible, and never at either bound. */
  predicate Visible(c: Card, p: real)
    ensures Visible(c, p) ==> c.start < c.end
    ensures p <= c.start || c.end <= p ==> !Visible(c, p)
  {
    c.start < p < c.end
  }

  /** The three style properties `update` writes on a card. */
  datatype CardStyle = CardStyle(opacity: real, translateY: real, pointerEvents: PointerEvents)

  /** A card's style at progress p. It is fully opaque and clickable exactly
      inside its window and fully transparent and inert outside it, so
      opacity and pointer-events always agree; the offset follows the
      journey. */
  function CardStyleAt(c: Card, p: real): (s: CardStyle)
    requires c.start < c.end
    ensures s.opacity == 1.0 <==> Visible(c, p)
    ensures s.opacity == 0.0 <==> !Visible(c, p)
    ensures s.pointerEvents == Auto <==> Visible(c, p)
    ensures s.translateY == Offset(Journey(c, p))
    ensures -110.0 <= s.translateY <= 110.0
  {
    var visible := c.start < p < c.end;
    CardStyle(if visible then 1.0 else 0.0, Offset(Journey(c, p)),
              if visible then Auto else NoEvents)
  }

  /** The timeline table: every card's window is well formed and 0.24 long,
      windows start in strictly increasing order, and the last card has left
      before the button starts to appear. */
  lemma Timeline()
    ensures |Cards| == 4
    ensures forall i :: 0 <= i < |Cards| ==> Cards[i].start < Cards[i].end
    ensures forall i :: 0 <= i < |Cards| ==> Cards[i].end - Cards[i].start == 0.24
    ensures forall i, j :: 0 <= i < j < |Cards| ==> Cards[i].start < Cards[j].start
    ensures forall i :: 0 <= i < |Cards| ==> Cards[i].end <= 0.77 < BtnInStart
  {
  }

  /** The button's fade: `clamp((p - BTN_IN_START) / BTN_IN_WINDOW, 0, 1)`. */
  function ButtonFade(p: real): (t: real)
    ensures 0.0 <= t <= 1.0
    ensures p <= BtnInStart ==> t == 0.0
    ensures p >= BtnInStart + BtnInWindow ==> t == 1.0
  {
    Clamp01((p - BtnInStart) / BtnInWindow)
  }

  lemma ButtonFadeMonotone(p: real, q: real)
    requires p <= q
    ensures ButtonFade(p) <= ButtonFade(q)
  {
    QuotientMonotone(p - BtnInStart, q - BtnInStart, BtnInWindow);
    Clamp01Monotone((p - BtnInStart) / BtnInWindow, (q - BtnInStart) / BtnInWindow);
  }

  /** The button's opacity, rise offset in pixels, and pointer-events. */
  datatype ButtonStyle = ButtonStyle(opacity: real, rise: real, pointerEvents: PointerEvents)

  /** The button's style at progress p: its opacity is the fade, it rises
      from 28px below its place to its place as it fades in, and it is
      clickable exactly when more than a tenth visible. */
  function ButtonStyleAt(p: real): (s: ButtonStyle)
    ensures s.opacity == ButtonFade(p)
    ensures 0.0 <= s.rise <= 28.0
    ensures s.rise == 0.0 <==> s.opacity == 1.0
    ensures s.rise == 28.0 <==> s.opacity == 0.0
    ensures s.pointerEvents == Auto <==> s.opacity > 0.1
  {
    var t := ButtonFade(p);
    ButtonStyle(t, (1.0 - t) * 28.0, if t > 0.1 then Auto else NoEvents)
  }

  /** As the page scrolls down the button only grows more visible and only
      rises; once clickable it stays clickable. */
  lemma ButtonAppearsMonotonically(p: real, q: real)
    requires p <= q
    ensures ButtonStyleAt(p).opacity <= ButtonStyleAt(q).opacity
    ensures ButtonStyleAt(q).rise <= ButtonStyleAt(p).rise
    ensures ButtonStyleAt(p).pointerEvents == Auto ==> ButtonStyleAt(q).pointerEvents == Auto
  {
    ButtonFadeMonotone(p, q);
  }

  /** While any card is on screen the button is invisible and inert: the
      button appears only after the last card has exited. */
  lemma {:induction false} ButtonHiddenWhileCardsShow(p: real, i: nat)
    requires i < |Cards| && Visible(Cards[i], p)
    ensures ButtonStyleAt(p).opacity == 0.0
    ensures ButtonStyleAt(p).pointerEvents == NoEvents
  {
    Timeline();
    assert p < BtnInStart;
  }

  class CardsOverlay {
    /** The style last written on each card; None while a card still has
        the style its markup gave it. */
    const cardStyles: array<Option<CardStyle>>
    /** The style last written on the button, if any. */
    var button: Option<ButtonStyle>
    /** Cleared by the effect's cleanup; `update` does nothing afterwards. */
    var alive: bool
    var isMobile: bool

    /** Mount: the mobile check runs, then the scroll effect registers its
        listener and runs `update` once. */
    constructor (innerWidth: real, scrollY: real, scrollHeight: real, innerHeight: real)
      ensures cardStyles.Length == |Cards| && fresh(cardStyles)
      ensures alive && isMobile == IsMobile(innerWidth)
      ensures Shows(ScrollProgress(scrollY, scrollHeight, innerHeight))
    {
      cardStyles := new Option<CardStyle>[|Cards|](_ => None);
      button := None;
      alive := true;
      isMobile := IsMobile(innerWidth);
      new;
      Update(scrollY, scrollHeight, innerHeight);
    }

    /** What the overlay shows for a progress: every card and the button
        styled for p, or, with no progress, nothing written yet. */
    ghost predicate Shows(progress: Option<real>)
      reads this, cardStyles
    {
      && cardStyles.Length == |Cards|
      && match progress
         case None => button.None? && forall i :: 0 <= i < |Cards| ==> cardStyles[i].None?
         case Some(p) =>
           && button == Some(ButtonStyleAt(p))
           && forall i :: 0 <= i < |Cards| ==> cardStyles[i] == Some(CardStyleAt(Cards[i], p))
    }

    /** The resize listener: re-run the mobile check. */
    method CheckMobile(innerWidth: real)
      modifies this`isMobile
      ensures isMobile == IsMobile(innerWidth)
    {
      isMobile := innerWidth < MobileBreakpoint;
    }

    /** `update()`: nothing after cleanup or on a page that cannot scroll;
        otherwise every card, then the button, is styled for the clamped
        scroll progress. */
    method Update(scrollY: real, scrollHeight: real, innerHeight: real)
      requires cardStyles.Length == |Cards|
      modifies cardStyles, this`button
      ensures !alive || scrollHeight - innerHeight <= 0.0 ==>
        unchanged(this) && unchanged(cardStyles)
      ensures alive && scrollHeight - innerHeight > 0.0 ==>
        Shows(ScrollProgress(scrollY, scrollHeight, innerHeight))
    {
      if !alive {
        return;
      }
      var max := scrollHeight - innerHeight;
      if max <= 0.0 {
        return;
      }
      var p := Clamp01(scrollY / max);
      StyleCards(p);
      var bt := Clamp01((p - BtnInStart) / BtnInWindow);
      button := Some(ButtonStyle(bt, (1.0 - bt) * 28.0, if bt > 0.1 then Auto else NoEvents));
    }

    /** The `CARDS.forEach` loop: each card in turn gets its style for p. */
    method StyleCards(p: real)
      requires cardStyles.Length == |Cards|
      modifies cardStyles
      ensures forall k :: 0 <= k < |Cards| ==> cardStyles[k] == Some(CardStyleAt(Cards[k], p))
    {
      Timeline();
      for i := 0 to |Cards|
        invariant forall k :: 0 <= k < i ==> cardStyles[k] == Some(CardStyleAt(Cards[k], p))
      {
        var card := Cards[i];
        var t := Journey(card, p);
        var ty := Offset(t);
        var visible := p > card.start && p < card.end;
        cardStyles[i] := Some(CardStyle(if visible then 1.0 else 0.0, ty,
                                        if visible then Auto else NoEvents));
      }
    }

    /** The effect's cleanup: later scroll events change nothing. */
    method Teardown()
      modifies this`alive
      ensures !alive
    {
      alive := false;
    }
  }
}
