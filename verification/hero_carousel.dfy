/** The hero carousel: the list of slides it shows, the active index, the
    autoplay step, the dot indicators and the call-to-action rule. The
    six-second interval is modelled as a `Tick` event; its timing is not. */
module HeroCarousel {
  import opened Common

  datatype Slide = Slide(
    id: string,
    title: string,
    subtitle: Option<string>,
    description: Option<string>,
    ctaLabel: Option<string>,
    ctaLink: Option<string>,
    imageUrl: Option<string>)

  /** The three local slides shown when the shop provides none. */
  const DefaultSlides: seq<Slide> := [
    Slide("1", "Find your perfect tone",
      Some("Curated instruments for every musician"),
      Some("From vintage guitars to studio-ready keys, explore handpicked gear tuned for feel and sound."),
      Some("Shop instruments"), Some("/collections/all"),
      Some("https://images.pexels.com/photos/811838/pexels-photo-811838.jpeg?auto=compress&cs=tinysrgb&w=1200")),
    Slide("2", "Studio-ready sound",
      Some("Microphones, monitors & more"),
      Some("Build a creative space that inspires you with pro‑grade audio gear and accessories."),
      Some("Browse studio gear"), Some("/collections"),
      Some("https://images.pexels.com/photos/995301/pexels-photo-995301.jpeg?auto=compress&cs=tinysrgb&w=1200")),
    Slide("3", "Play every stage",
      Some("Live performance essentials"),
      Some("From pedals to PA, get everything you need to sound incredible on stage or on stream."),
      Some("Explore live gear"), Some("/collections"),
      Some("https://images.pexels.com/photos/164745/pexels-photo-164745.jpeg?auto=compress&cs=tinysrgb&w=1200"))
  ]

  /** `slides && slides.length ? slides : defaultSlides` */
  function Items(slides: Option<seq<Slide>>): (r: seq<Slide>)
    ensures |r| > 0
    ensures slides.Some? && |slides.value| > 0 ==> r == slides.value
    ensures slides.None? || |slides.value| == 0 ==> r == DefaultSlides
  {
    if slides.Some? && |slides.value| > 0 then slides.value else DefaultSlides
  }

  /** The component state: the slides on screen and `activeIndex`. The
      index starts at 0 and is only ever set to a dot's index or to a
      remainder of a non-negative number, so it is never negative; JavaScript's
      truncating `%` and Dafny's agree on it. */
  datatype Carousel = Carousel(items: seq<Slide>, active: nat)

  predicate InRange(c: Carousel) {
    0 <= c.active < |c.items|
  }

  /** First render: the active index starts at 0, which is always in range. */
  function Init(slides: Option<seq<Slide>>): (c: Carousel)
    ensures InRange(c) && c.active == 0
    ensures c.items == Items(slides)
  {
    Carousel(Items(slides), 0)
  }

  /** The autoplay interval is installed only when there are two or more
      slides. */
  predicate AutoplayInstalled(c: Carousel) {
    |c.items| > 1
  }

  /** One firing of the autoplay timer: `(current + 1) % items.length`, or
      nothing when no timer is installed. */
  function Tick(c: Carousel): (r: Carousel)
    ensures r.items == c.items
    ensures AutoplayInstalled(c) ==> InRange(r)
    ensures InRange(c) ==> InRange(r)
    ensures AutoplayInstalled(c) && c.active == |c.items| - 1 ==> r.active == 0
    ensures AutoplayInstalled(c) && 0 <= c.active < |c.items| - 1 ==> r.active == c.active + 1
    ensures AutoplayInstalled(c) ==> r.active == (c.active + 1) % |c.items|
    ensures !AutoplayInstalled(c) ==> r == c
  {
    if AutoplayInstalled(c) then c.(active := (c.active + 1) % |c.items|) else c
  }

  /** `k` firings of the timer. */
  function Ticks(c: Carousel, k: nat): Carousel {
    if k == 0 then c else Tick(Ticks(c, k - 1))
  }

  /** The remainder is the unique `r` with `x == q * n + r` and `0 <= r < n`. */
  lemma ModUnique(x: int, n: int, q: int, r: int)
    requires n > 0 && 0 <= r < n && x == q * n + r
    ensures x % n == r
  {
    var q', r' := x / n, x % n;
    assert (q - q') * n == r' - r;
    if q - q' >= 1 {
      assert false;
    } else if q - q' <= -1 {
      assert false;
    }
  }

  lemma ModSucc(x: int, n: int)
    requires x >= 0 && n > 0
    ensures (x % n + 1) % n == (x + 1) % n
  {
    var q, r := x / n, x % n;
    if r + 1 < n {
      ModUnique(x % n + 1, n, 0, r + 1);
      ModUnique(x + 1, n, q, r + 1);
    } else {
      ModUnique(x % n + 1, n, 1, 0);
      ModUnique(x + 1, n, q + 1, 0);
    }
  }

  /** After `k` firings the index has advanced by `k`, modulo the number of
      slides. */
  lemma {:induction false} TicksAdvance(c: Carousel, k: nat)
    requires InRange(c)
    ensures Ticks(c, k).items == c.items
    ensures Ticks(c, k).active == (c.active + k) % |c.items|
  {
    if k > 0 {
      TicksAdvance(c, k - 1);
      var n := |c.items|;
      if n > 1 {
        ModSucc(c.active + k - 1, n);
      }
    }
  }

  /** As many firings as there are slides bring the carousel back to the
      slide it started from. */
  lemma FullCycle(c: Carousel)
    requires InRange(c)
    ensures Ticks(c, |c.items|) == c
  {
    var n := |c.items|;
    TicksAdvance(c, n);
    assert Ticks(c, n).active == (c.active + n) % n;
    ModUnique(c.active + n, n, 1, c.active);
    assert Ticks(c, n).active == c.active && Ticks(c, n).items == c.items;
  }

  /** Clicking dot `k`: `setActiveIndex(k)`. Dots exist only for the
      indices of the rendered items. */
  function Select(c: Carousel, k: int): (r: Carousel)
    requires 0 <= k < |c.items|
    ensures InRange(r) && r.active == k && r.items == c.items
  {
    c.(active := k)
  }

  /** The dots, one per slide; dot `j` is marked active when
      `j === activeIndex`. */
  function Dots(c: Carousel): (r: seq<bool>)
    ensures |r| == |c.items|
    ensures forall j :: 0 <= j < |r| ==> (r[j] <==> j == c.active)
    ensures InRange(c) ==> r[c.active]
  {
    seq(|c.items|, j requires 0 <= j < |c.items| => j == c.active)
  }

  function CountActive(dots: seq<bool>): nat {
    if |dots| == 0 then 0 else (if dots[0] then 1 else 0) + CountActive(dots[1..])
  }

  lemma {:induction false} NoneActive(dots: seq<bool>)
    requires forall j :: 0 <= j < |dots| ==> !dots[j]
    ensures CountActive(dots) == 0
    decreases |dots|
  {
    if |dots| > 0 {
      NoneActive(dots[1..]);
    }
  }

  lemma {:induction false} OneActive(dots: seq<bool>, k: int)
    requires 0 <= k < |dots|
    requires forall j :: 0 <= j < |dots| ==> (dots[j] <==> j == k)
    ensures CountActive(dots) == 1
    decreases |dots|
  {
    if k == 0 {
      NoneActive(dots[1..]);
    } else {
      OneActive(dots[1..], k - 1);
    }
  }

  /** Exactly one dot is marked active while the index is in range, and
      none when it is not. */
  lemma ExactlyOneDot(c: Carousel)
    ensures InRange(c) ==> CountActive(Dots(c)) == 1
    ensures !InRange(c) ==> CountActive(Dots(c)) == 0
    ensures InRange(c) ==> Dots(c)[c.active]
  {
    if InRange(c) {
      OneActive(Dots(c), c.active);
    } else {
      NoneActive(Dots(c));
    }
  }

  /** A re-render with a new `slides` prop: the items are recomputed but
      `activeIndex` is kept as it was, without clamping. */
  function Rerender(c: Carousel, slides: Option<seq<Slide>>): (r: Carousel)
    ensures r.active == c.active && r.items == Items(slides)
    ensures InRange(c) && |Items(slides)| == |c.items| ==> InRange(r)
  {
    Carousel(Items(slides), c.active)
  }

  /** `items[activeIndex]`; `None` stands for the `undefined` that makes the
      render throw when it reads `active.subtitle`. */
  function ActiveSlide(c: Carousel): (r: Option<Slide>)
    ensures r.Some? <==> InRange(c)
    ensures r.Some? ==> r.value == c.items[c.active]
  {
    if InRange(c) then Some(c.items[c.active]) else None
  }

  /** Clicking dot `k` shows slide `k`. */
  lemma DotShowsSlide(c: Carousel, k: int)
    requires 0 <= k < |c.items|
    ensures ActiveSlide(Select(c, k)) == Some(c.items[k])
  {
  }

  /** The in-range invariant holds only for a fixed list: going from the
      three default slides, showing the third, to a single shop slide
      leaves the index past the end, and with one slide no timer is
      installed to bring it back. */
  lemma ShrinkingSlidesLeaveRange(s: Slide)
    ensures var before := Carousel(DefaultSlides, 2);
      var after := Rerender(before, Some([s]));
      && InRange(before)
      && !InRange(after)
      && ActiveSlide(after).None?
      && Tick(after) == after
  {
  }

  /** `active.cta_link || active.cta_label`: the call-to-action block. */
  predicate CtaShown(s: Slide) {
    Truthy(s.ctaLink) || Truthy(s.ctaLabel)
  }

  /** What the active slide shows. */
  datatype SlideView = SlideView(
    subtitle: Option<string>,
    description: Option<string>,
    cta: bool,
    image: bool)

  function ViewOf(s: Slide): (v: SlideView)
    ensures v.cta <==> (s.ctaLink.Some? && s.ctaLink.value != "")
                       || (s.ctaLabel.Some? && s.ctaLabel.value != "")
    ensures v.subtitle.Some? <==> Truthy(s.subtitle)
    ensures v.description.Some? <==> Truthy(s.description)
  {
    SlideView(
      if Truthy(s.subtitle) then s.subtitle else None,
      if Truthy(s.description) then s.description else None,
      CtaShown(s),
      Truthy(s.imageUrl))
  }

  /** Every default slide has its call to action. */
  lemma DefaultsShowCta(i: int)
    requires 0 <= i < |DefaultSlides|
    ensures ViewOf(DefaultSlides[i]).cta
  {
  }
}
