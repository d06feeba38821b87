/**
 * The page shell: the header's scrolled flag and the "identity lifecycle"
 * section, whose cards are crossfaded one into the next by a scroll-driven
 * timeline.
 *
 * The timeline is modelled as the list of segments it is built from, each
 * with its start offset and duration in half-units (a hold of 0.5 is 1, a
 * swap of 1 is 2), and card styles as CardState records. Playing the
 * timeline to a point is modelled by applying, in order, the segments that
 * have completed by then (ApplyAll); eased interpolation inside a tween is
 * not modelled.
 */
module App {

  datatype Option<T> = None | Some(value: T)

  function Max(a: int, b: int): int
  {
    if a < b then b else a
  }

  // ---------------------------------------------------------------------
  // Header

  /** The scroll offset beyond which the header switches to its scrolled look. */
  const ScrollThreshold: real := 20.0

  /** The header's state flag, updated by the scroll listener. */
  class Header {
    var isScrolled: bool

    constructor ()
      ensures !isScrolled
    {
      isScrolled := false;
    }

    /** The scroll listener: `window.scrollY > 20`. */
    method OnScroll(scrollY: real)
      modifies this
      ensures isScrolled <==> scrollY > ScrollThreshold
    {
      isScrolled := scrollY > ScrollThreshold;
    }
  }

  // ---------------------------------------------------------------------
  // Card refs and stacking

  /**
   * The array behind `cardsRef`: slot idx holds the element of step idx once
   * its ref callback has run with a non-null element. Slots never written
   * are holes (None).
   */
  class CardRefs<C> {
    var current: seq<Option<C>>

    constructor ()
      ensures current == []
    {
      current := [];
    }

    /**
     * The ref callback of step `idx`: a non-null element is stored in slot
     * idx, growing the array with holes if needed; a null element (the
     * callback on unmount) is ignored.
     */
    method Assign(idx: nat, el: Option<C>)
      modifies this
      ensures el.None? ==> current == old(current)
      ensures el.Some? ==> |current| == Max(|old(current)|, idx + 1) && current[idx] == el
      ensures el.Some? ==> forall k :: 0 <= k < |old(current)| && k != idx ==> current[k] == old(current)[k]
      ensures el.Some? ==> forall k :: |old(current)| <= k < idx ==> current[k] == None
    {
      if el.Some? {
        var padded := current;
        while |padded| <= idx
          invariant |current| <= |padded| <= Max(|current|, idx + 1)
          invariant padded[..|current|] == current
          invariant forall k :: |current| <= k < |padded| ==> padded[k] == None
          decreases idx + 1 - |padded|
        {
          padded := padded + [None];
        }
        current := padded[idx := el];
      }
    }

    /** Rendering the steps in order: each step's card element is handed to its ref callback. */
    method RenderSteps(els: seq<C>)
      modifies this
      ensures |current| == Max(|old(current)|, |els|)
      ensures forall k :: 0 <= k < |els| ==> current[k] == Some(els[k])
      ensures forall k :: |els| <= k < |old(current)| ==> current[k] == old(current)[k]
    {
      var idx := 0;
      while idx < |els|
        invariant 0 <= idx <= |els|
        invariant |current| == Max(|old(current)|, idx)
        invariant forall k :: 0 <= k < idx ==> current[k] == Some(els[k])
        invariant forall k :: idx <= k < |old(current)| ==> current[k] == old(current)[k]
      {
        Assign(idx, Some(els[idx]));
        idx := idx + 1;
      }
    }
  }

  /** The stacking order of card idx among `count` cards: `steps.length - idx`. */
  function ZIndex(count: nat, idx: nat): (z: int)
    ensures idx < count ==> 1 <= z <= count
  {
    count - idx
  }

  /** Earlier cards stack above later ones, so card 0 is on top. */
  lemma ZIndexDecreases(count: nat, a: nat, b: nat)
    requires a < b < count
    ensures ZIndex(count, a) > ZIndex(count, b) && ZIndex(count, 0) >= ZIndex(count, b)
  {
  }

  /** `cardsRef.current.filter(Boolean)`: the elements present, holes dropped. */
  function Present<C>(refs: seq<Option<C>>): (cards: seq<C>)
    ensures |cards| <= |refs|
    ensures (forall k :: 0 <= k < |refs| ==> refs[k].Some?) ==> |cards| == |refs|
    ensures (forall k :: 0 <= k < |refs| ==> refs[k].None?) ==> cards == []
  {
    if refs == [] then []
    else (if refs[0].Some? then [refs[0].value] else []) + Present(refs[1..])
  }

  /** Filtering distributes over concatenation, so it keeps the order of the elements it keeps. */
  lemma {:induction false} PresentAppend<C>(a: seq<Option<C>>, b: seq<Option<C>>)
    ensures Present(a + b) == Present(a) + Present(b)
  {
    if a == [] {
      assert a + b == b;
    } else {
      assert (a + b)[1..] == a[1..] + b;
      PresentAppend(a[1..], b);
    }
  }

  /** With no holes, the filtered list is exactly the elements, slot for slot. */
  lemma {:induction false} PresentOfFull<C>(els: seq<C>)
    ensures Present(seq(|els|, k requires 0 <= k < |els| => Some(els[k]))) == els
  {
    if els != [] {
      var refs := seq(|els|, k requires 0 <= k < |els| => Some(els[k]));
      assert refs[1..] == seq(|els[1..]|, k requires 0 <= k < |els[1..]| => Some(els[1..][k]));
      PresentOfFull(els[1..]);
    }
  }

  /** After the steps render into an empty ref array, the filtered cards are the steps' elements in order. */
  lemma RenderedCardsInOrder<C>(refs: seq<Option<C>>, els: seq<C>)
    requires |refs| == |els|
    requires forall k :: 0 <= k < |els| ==> refs[k] == Some(els[k])
    ensures Present(refs) == els
  {
    assert refs == seq(|els|, k requires 0 <= k < |els| => Some(els[k]));
    PresentOfFull(els);
  }

  // ---------------------------------------------------------------------
  // Card styles

  /** The style properties the timeline sets on a card; scale is in percent. */
  datatype CardState = CardState(opacity: int, y: int, scalePct: int, pointerEvents: bool)

  /** The preset of every card: transparent, 50 below, shrunk, not clickable. */
  const Hidden: CardState := CardState(0, 50, 95, false)
  /** The preset of card 0 and the target of a fade-in: opaque, in place, full size, clickable. */
  const Shown: CardState := CardState(1, 0, 100, true)
  /** The target of a fade-out: transparent, 50 above, shrunk, not clickable. */
  const Exited: CardState := CardState(0, -50, 95, false)

  /** Visibility and interactivity go together: opaque cards take input, transparent ones do not. */
  predicate Coupled(s: CardState)
  {
    && (s.opacity == 1 ==> s.pointerEvents)
    && (s.opacity == 0 ==> !s.pointerEvents)
  }

  /**
   * The styles after the two presets: every card hidden, then card 0 shown.
   * Before the timeline plays only card 0 is visible, and every preset is
   * coupled.
   */
  function InitialStyles(n: nat): (styles: seq<CardState>)
    ensures |styles| == n
    ensures forall j :: 0 <= j < n ==> (styles[j].opacity == 1 <==> j == 0)
    ensures forall j :: 0 <= j < n ==> Coupled(styles[j])
  {
    seq(n, k => if k == 0 then Shown else Hidden)
  }

  // ---------------------------------------------------------------------
  // The timeline

  /** Durations in half-units. */
  const HoldHalves: nat := 1
  const SwapHalves: nat := 2
  /** One hold followed by one swap. */
  const PairHalves: nat := HoldHalves + SwapHalves

  /**
   * A segment of the timeline: an empty tween that only holds, or a tween
   * of card `card` (its position in the filtered list) to `target`,
   * positioned at the label `swap-<swap>`.
   */
  datatype Segment =
    | Hold(start: nat, duration: nat)
    | Tween(card: nat, target: CardState, swap: nat, start: nat, duration: nat)

  function End(s: Segment): nat
  {
    s.start + s.duration
  }

  /**
   * What the loop appends for card i when it has a successor: a hold, then
   * card i out and card i+1 in, both starting at label swap-i where the hold
   * ends; the block spans [3i, 3(i+1)].
   */
  function SwapBlock(i: nat): (block: seq<Segment>)
    ensures |block| == PairHalves
    ensures block[0].Hold? && block[0].start == PairHalves * i
    ensures block[1].Tween? && block[1].card == i && block[1].target == Exited && block[1].swap == i
    ensures block[2].Tween? && block[2].card == i + 1 && block[2].target == Shown && block[2].swap == i
    ensures block[1].start == block[2].start == End(block[0])
    ensures End(block[1]) == End(block[2]) == PairHalves * (i + 1)
  {
    [ Hold(PairHalves * i, HoldHalves),
      Tween(i, Exited, i, PairHalves * i + HoldHalves, SwapHalves),
      Tween(i + 1, Shown, i, PairHalves * i + HoldHalves, SwapHalves) ]
  }

  /** The blocks of the first k swaps: three segments per swap, ending at 3k. */
  function Swaps(k: nat): (tl: seq<Segment>)
    ensures |tl| == PairHalves * k
  {
    if k == 0 then [] else Swaps(k - 1) + SwapBlock(k - 1)
  }

  /**
   * The timeline for n >= 1 cards: the n - 1 swap blocks and a trailing
   * hold, 3(n - 1) + 1 segments; the last is a hold of 0.5 at 3(n - 1).
   */
  function Schedule(n: nat): (tl: seq<Segment>)
    requires n >= 1
    ensures |tl| == PairHalves * (n - 1) + 1
    ensures tl[|tl| - 1] == Hold(PairHalves * (n - 1), HoldHalves)
  {
    Swaps(n - 1) + [Hold(PairHalves * (n - 1), HoldHalves)]
  }

  /** What the layout effect produces: the filtered cards, their preset styles and the timeline. */
  datatype Scene<C> = Scene(cards: seq<C>, styles: seq<CardState>, timeline: seq<Segment>)

  /**
   * The layout effect. With no card present it stops before building a
   * timeline or setting any style. Otherwise it presets the styles and
   * walks the cards: each card with a successor adds a hold at the end of
   * the timeline, then places the label `swap-<index>` at the new end and
   * starts both tweens of the swap there; a final hold closes the timeline.
   */
  method BuildCrossfade<C>(refs: seq<Option<C>>) returns (scene: Option<Scene<C>>)
    ensures scene.None? <==> Present(refs) == []
    ensures scene.Some? ==> scene.value.cards == Present(refs)
    ensures scene.Some? ==> scene.value.styles == InitialStyles(|Present(refs)|)
    ensures scene.Some? ==> scene.value.timeline == Schedule(|Present(refs)|)
  {
    var cards := Present(refs);
    if |cards| == 0 {
      return None;
    }
    var n := |cards|;

    // gsap.set(cards, hidden), then gsap.set(cards[0], shown)
    var styles: seq<CardState> := [];
    while |styles| < n
      invariant |styles| <= n
      invariant forall k :: 0 <= k < |styles| ==> styles[k] == Hidden
    {
      styles := styles + [Hidden];
    }
    styles := styles[0 := Shown];

    var tl: seq<Segment> := [];
    var end: nat := 0;
    var index := 0;
    while index < n
      invariant 0 <= index <= n
      invariant tl == Swaps(if index < n then index else n - 1)
      invariant end == PairHalves * (if index < n then index else n - 1)
    {
      if index < n - 1 {
        tl := tl + [Hold(end, HoldHalves)];
        end := end + HoldHalves;
        var at := end;
        tl := tl + [Tween(index, Exited, index, at, SwapHalves)];
        tl := tl + [Tween(index + 1, Shown, index, at, SwapHalves)];
        end := at + SwapHalves;
        assert tl == Swaps(index) + SwapBlock(index);
      }
      index := index + 1;
    }
    tl := tl + [Hold(end, HoldHalves)];
    scene := Some(Scene(cards, styles, tl));
  }

  /** Segment j of the first k swap blocks is entry j % 3 of block j / 3. */
  lemma {:induction false} SwapsAt(k: nat, j: nat)
    requires j < PairHalves * k
    ensures |Swaps(k)| == PairHalves * k
    ensures Swaps(k)[j] == SwapBlock(j / PairHalves)[j % PairHalves]
  {
    if j < PairHalves * (k - 1) {
      SwapsAt(k - 1, j);
    } else {
      assert j / PairHalves == k - 1;
    }
  }

  /**
   * The layout of the timeline for n cards: 3(n - 1) + 1 segments; for every
   * adjacent pair (i, i + 1) a hold at 3i, then card i fading out and card
   * i + 1 fading in, both at label swap-i, which sits at 3i + 1 where the
   * hold ends; the trailing hold at 3(n - 1).
   */
  lemma ScheduleLayout(n: nat, i: nat)
    requires n >= 1 && i < n - 1
    ensures |Schedule(n)| == PairHalves * (n - 1) + 1
    ensures Schedule(n)[PairHalves * i] == Hold(PairHalves * i, HoldHalves)
    ensures Schedule(n)[PairHalves * i + 1] == Tween(i, Exited, i, PairHalves * i + HoldHalves, SwapHalves)
    ensures Schedule(n)[PairHalves * i + 2] == Tween(i + 1, Shown, i, PairHalves * i + HoldHalves, SwapHalves)
    ensures Schedule(n)[PairHalves * (n - 1)] == Hold(PairHalves * (n - 1), HoldHalves)
  {
    var j := PairHalves * i;
    assert j / PairHalves == i && j % PairHalves == 0;
    assert (j + 1) / PairHalves == i && (j + 1) % PairHalves == 1;
    assert (j + 2) / PairHalves == i && (j + 2) % PairHalves == 2;
    SwapsAt(n - 1, j);
    SwapsAt(n - 1, j + 1);
    SwapsAt(n - 1, j + 2);
  }

  /**
   * Every segment is either one of the n holds of 0.5 or one of the swap
   * tweens of length 1; each tween targets a coupled style, and the
   * segments are listed in order of their start.
   */
  lemma ScheduleSegments(n: nat)
    requires n >= 1
    ensures forall j :: 0 <= j < |Schedule(n)| && Schedule(n)[j].Hold? ==> Schedule(n)[j].duration == HoldHalves
    ensures forall j :: 0 <= j < |Schedule(n)| && Schedule(n)[j].Tween? ==>
      Schedule(n)[j].duration == SwapHalves && Coupled(Schedule(n)[j].target) && Schedule(n)[j].card < n
    ensures forall a, b :: 0 <= a <= b < |Schedule(n)| ==> Schedule(n)[a].start <= Schedule(n)[b].start
  {
    var s := Schedule(n);
    forall j | 0 <= j < |s|
      ensures s[j].start == PairHalves * (j / PairHalves) + (if j % PairHalves == 0 then 0 else HoldHalves)
      ensures s[j].Hold? ==> s[j].duration == HoldHalves
      ensures s[j].Tween? ==> s[j].duration == SwapHalves && Coupled(s[j].target) && s[j].card < n
    {
      if j < PairHalves * (n - 1) {
        SwapsAt(n - 1, j);
      }
    }
  }

  /** The duration of a timeline: where its last-ending segment ends. */
  function Duration(tl: seq<Segment>): (d: nat)
    ensures forall j :: 0 <= j < |tl| ==> End(tl[j]) <= d
  {
    if tl == [] then 0
    else
      var before := tl[..|tl| - 1];
      assert forall j :: 0 <= j < |before| ==> before[j] == tl[j];
      Max(Duration(before), End(tl[|tl| - 1]))
  }

  /** The duration is attained: some segment ends exactly when the timeline does. */
  lemma {:induction false} DurationAttained(tl: seq<Segment>)
    requires tl != []
    ensures exists j :: 0 <= j < |tl| && End(tl[j]) == Duration(tl)
  {
    var last := |tl| - 1;
    if last > 0 && End(tl[last]) < Duration(tl) {
      var before := tl[..last];
      DurationAttained(before);
      var j :| 0 <= j < |before| && End(before[j]) == Duration(before);
      assert tl[j] == before[j];
    } else {
      assert tl[..last] == [] || End(tl[last]) >= Duration(tl);
      assert End(tl[last]) == Duration(tl);
    }
  }

  lemma DurationSnoc(tl: seq<Segment>, s: Segment)
    ensures Duration(tl + [s]) == Max(Duration(tl), End(s))
  {
    assert (tl + [s])[..|tl|] == tl;
  }

  /** The first k swap blocks take 1.5 per swap. */
  lemma {:induction false} SwapsDuration(k: nat)
    ensures Duration(Swaps(k)) == PairHalves * k
  {
    if k > 0 {
      SwapsDuration(k - 1);
      var b := SwapBlock(k - 1);
      var p1 := Swaps(k - 1) + [b[0]];
      var p2 := p1 + [b[1]];
      assert p2 + [b[2]] == Swaps(k);
      DurationSnoc(Swaps(k - 1), b[0]);
      DurationSnoc(p1, b[1]);
      DurationSnoc(p2, b[2]);
    }
  }

  /** The whole timeline for n cards lasts 1.5 (n - 1) + 0.5 units, that is 3(n - 1) + 1 half-units. */
  lemma ScheduleDuration(n: nat)
    requires n >= 1
    ensures Duration(Schedule(n)) == PairHalves * (n - 1) + HoldHalves
  {
    SwapsDuration(n - 1);
    DurationSnoc(Swaps(n - 1), Hold(PairHalves * (n - 1), HoldHalves));
  }

  // ---------------------------------------------------------------------
  // Card styles along the timeline

  /** The effect of one completed segment: a tween leaves its card at its target. */
  function Apply(styles: seq<CardState>, s: Segment): seq<CardState>
  {
    match s
    case Hold(_, _) => styles
    case Tween(card, target, _, _, _) => if card < |styles| then styles[card := target] else styles
  }

  /** The styles once every segment of `tl` has completed, in order. */
  function ApplyAll(styles: seq<CardState>, tl: seq<Segment>): seq<CardState>
  {
    if tl == [] then styles else Apply(ApplyAll(styles, tl[..|tl| - 1]), tl[|tl| - 1])
  }

  /** The styles at rest after k swaps: earlier cards exited, card k shown, later cards still hidden. */
  function AtRest(n: nat, k: nat): seq<CardState>
  {
    seq(n, j => if j < k then Exited else if j == k then Shown else Hidden)
  }

  lemma ApplyAllSnoc(styles: seq<CardState>, tl: seq<Segment>, s: Segment)
    ensures ApplyAll(styles, tl + [s]) == Apply(ApplyAll(styles, tl), s)
  {
    assert (tl + [s])[..|tl|] == tl;
  }

  /**
   * Between swaps exactly one card is visible: after the first k swaps of
   * n cards, cards before k have exited, card k is shown and later cards
   * are still hidden; every card's style is coupled.
   */
  lemma {:induction false} StylesAfterSwaps(n: nat, k: nat)
    requires k < n
    ensures ApplyAll(InitialStyles(n), Swaps(k)) == AtRest(n, k)
    ensures forall j :: 0 <= j < n ==> (AtRest(n, k)[j].opacity == 1 <==> j == k)
    ensures forall j :: 0 <= j < n ==> Coupled(AtRest(n, k)[j])
  {
    if k == 0 {
      assert InitialStyles(n) == AtRest(n, 0);
    } else {
      StylesAfterSwaps(n, k - 1);
      var p := Swaps(k - 1);
      var b := SwapBlock(k - 1);
      assert p + b == ((p + [b[0]]) + [b[1]]) + [b[2]];
      ApplyAllSnoc(InitialStyles(n), p, b[0]);
      ApplyAllSnoc(InitialStyles(n), p + [b[0]], b[1]);
      ApplyAllSnoc(InitialStyles(n), (p + [b[0]]) + [b[1]], b[2]);
      assert AtRest(n, k - 1)[k - 1 := Exited][k := Shown] == AtRest(n, k);
    }
  }

  /** The styles once the whole timeline for n >= 1 cards has played. */
  function FinalStyles(n: nat): seq<CardState>
    requires n >= 1
  {
    ApplyAll(InitialStyles(n), Schedule(n))
  }

  /**
   * After the whole timeline for n >= 1 cards only the last card is
   * visible and interactive; every earlier card is transparent, 50 above.
   */
  lemma EndStyles(n: nat)
    requires n >= 1
    ensures FinalStyles(n) == AtRest(n, n - 1)
    ensures forall j :: 0 <= j < n - 1 ==> FinalStyles(n)[j] == Exited
    ensures FinalStyles(n)[n - 1] == Shown
  {
    StylesAfterSwaps(n, n - 1);
    ApplyAllSnoc(InitialStyles(n), Swaps(n - 1), Hold(PairHalves * (n - 1), HoldHalves));
  }
}
