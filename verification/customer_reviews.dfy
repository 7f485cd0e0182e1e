/** The "Customer Review" slider (`CustomerReviews.tsx`): five reviews, a
    three-card window that prev/next move one card at a time under a 500 ms
    lock, and one pagination dot per group of three.

    The component renders every review in a translated grid and computes the
    window `visibleReviews` without using it; the cards in view are taken to
    be that window, the reviews at `activeIndex .. activeIndex + 2`.
    As in the top-selling carousel, an effect keyed on the index arms the
    timer that clears the lock; `timerPending` records an armed timer. */
module CustomerReviews {
  import JsMath
  import JsArray

  datatype Review = Review(
    id: int,
    name: string,
    avatar: string,
    stars: int,
    text: string,
    date: string,
    location: string,
    verified: bool)

  const Reviews: seq<Review> := [
    Review(1, "Maxen Royal", "https://randomuser.me/api/portraits/men/52.jpg", 5,
      "These plants completely transformed my living space! The Calathea I ordered arrived in perfect condition and has been thriving ever since. The customer service was outstanding too.",
      "2 weeks ago", "New York", true),
    Review(2, "Verity K.", "https://randomuser.me/api/portraits/women/44.jpg", 5,
      "I've ordered plants from many online stores, but the quality here is exceptional. My apartment now feels like a lush paradise, and I've already placed another order!",
      "1 month ago", "California", true),
    Review(3, "Lil Thakur", "https://randomuser.me/api/portraits/women/36.jpg", 4,
      "Beautiful plants and fast delivery. I appreciate the care instructions that came with my order. One plant had a slightly damaged leaf, but it's growing well otherwise.",
      "3 weeks ago", "Toronto", true),
    Review(4, "James Parker", "https://randomuser.me/api/portraits/men/43.jpg", 5,
      "I was hesitant to order plants online, but I'm so glad I did! The selection is amazing, and the plants arrived healthy and well-packaged. Highly recommend!",
      "2 days ago", "London", true),
    Review(5, "Ella Rodriguez", "https://randomuser.me/api/portraits/women/29.jpg", 5,
      "I've become a repeat customer because the quality is consistently excellent. The rare varieties they carry are hard to find elsewhere. My collection keeps growing!",
      "1 week ago", "Miami", true)
  ]

  /** Cards per view. */
  const PerView := 3

  lemma ReviewCount()
    ensures |Reviews| == 5
  {
  }

  datatype Slider = Slider(active: int, animating: bool, timerPending: bool)

  /** First render: the first card, unlocked, and the mount run of the effect arms a timer. */
  const Initial := Slider(0, false, true)

  /** The cards in view: `reviews.slice(activeIndex, activeIndex + 3)`. */
  function Window(s: Slider): (r: seq<Review>)
    ensures 0 <= s.active ==> |r| <= PerView
    ensures 0 <= s.active ==>
      forall k :: 0 <= k < |r| ==> s.active + k < |Reviews| && r[k] == Reviews[s.active + k]
    ensures 0 <= s.active <= 3 ==> |r| >= 2
  {
    ReviewCount();
    JsArray.Slice(Reviews, s.active, s.active + PerView)
  }

  predicate PrevDisabled(s: Slider) {
    s.active == 0 || s.animating
  }

  predicate NextDisabled(s: Slider) {
    s.active + PerView >= |Reviews| || s.animating
  }

  /** `nextSlide`: one card on, while a full window still follows, and unlocked. */
  function Next(s: Slider): (r: Slider)
    ensures NextDisabled(s) ==> r == s
    ensures !NextDisabled(s) ==> r == Slider(s.active + 1, true, true)
  {
    if s.active + PerView < |Reviews| && !s.animating then Slider(s.active + 1, true, true) else s
  }

  /** `prevSlide`: one card back, unless on the first card or locked. */
  function Prev(s: Slider): (r: Slider)
    ensures PrevDisabled(s) ==> r == s
    ensures s.active >= 0 && !PrevDisabled(s) ==> r == Slider(s.active - 1, true, true)
  {
    if s.active > 0 && !s.animating then Slider(s.active - 1, true, true) else s
  }

  /** `Math.ceil(reviews.length / 3)` dots. */
  function DotCount(): (n: int)
    ensures n * PerView - PerView < |Reviews| <= n * PerView
  {
    JsMath.CeilDiv(|Reviews|, PerView)
  }

  /** Dot `i` is highlighted when `Math.floor(activeIndex / 3) === i`. */
  predicate DotHighlighted(s: Slider, i: int) {
    JsMath.FloorDiv(s.active, PerView) == i
  }

  /** A dot click: when unlocked, jump to the dot's first card. It does not
      take the lock; a moved index re-arms the timer. */
  function DotClick(s: Slider, i: int): (r: Slider)
    ensures s.animating ==> r == s
    ensures !s.animating ==> r.active == i * PerView && !r.animating
    ensures r.timerPending == (s.timerPending || (!s.animating && i * PerView != s.active))
    ensures !s.animating && 0 <= i ==> DotHighlighted(r, i)
    ensures Valid(s) && 0 <= i < DotCount() ==> Valid(r)
  {
    if !s.animating then Slider(i * PerView, false, s.timerPending || i * PerView != s.active) else s
  }

  function TimerFires(s: Slider): (r: Slider)
    ensures s.timerPending ==> r == Slider(s.active, false, false)
    ensures !s.timerPending ==> r == s
    ensures Valid(s) ==> Valid(r) && !r.animating
    ensures Window(r) == Window(s)
  {
    if s.timerPending then Slider(s.active, false, false) else s
  }

  datatype Event = NextClick | PrevClick | Dot(i: int) | Timer

  /** The states the slider can reach: a first card from 0 to 3 (3 only by
      the second dot) and a lock that an armed timer will release. */
  predicate Valid(s: Slider) {
    0 <= s.active <= 3 && (s.animating ==> s.timerPending)
  }

  /** One event; only the rendered dots can be clicked. */
  function Step(s: Slider, e: Event): (r: Slider)
    requires Valid(s)
    ensures Valid(r)
  {
    ReviewCount();
    match e
    case NextClick => Next(s)
    case PrevClick => Prev(s)
    case Dot(i) => if 0 <= i < DotCount() then DotClick(s, i) else s
    case Timer => TimerFires(s)
  }

  function Run(s: Slider, events: seq<Event>): Slider
    requires Valid(s)
    decreases |events|
  {
    if |events| == 0 then s else Run(Step(s, events[0]), events[1..])
  }

  /** Prev and next alone keep a full window in view: starting from the first
      card, `activeIndex + 3` never passes the number of reviews. */
  lemma {:induction false} ArrowsKeepWindowFull(s: Slider, events: seq<Event>)
    requires Valid(s) && s.active + PerView <= |Reviews|
    requires forall k :: 0 <= k < |events| ==> !events[k].Dot?
    ensures Run(s, events).active + PerView <= |Reviews|
    ensures |Window(Run(s, events))| == PerView
    decreases |events|
  {
    ReviewCount();
    if |events| > 0 {
      var t := Step(s, events[0]);
      assert t.active + PerView <= |Reviews|;
      assert forall k :: 0 <= k < |events| - 1 ==> !events[1..][k].Dot? by {
        forall k | 0 <= k < |events| - 1 ensures !events[1..][k].Dot? {
          assert events[1..][k] == events[k + 1];
        }
      }
      ArrowsKeepWindowFull(t, events[1..]);
    }
  }

  /** In every reachable state the window shows the reviews from `active` on,
      at least two of them. */
  lemma WindowContents(s: Slider)
    requires Valid(s)
    ensures 2 <= |Window(s)| <= PerView
    ensures |Window(s)| == if s.active + PerView <= 5 then PerView else 5 - s.active
    ensures forall k :: 0 <= k < |Window(s)| ==> Window(s)[k] == Reviews[s.active + k]
  {
    ReviewCount();
  }

  /** The second dot jumps to the fourth card, where only two reviews remain. */
  lemma SecondDotShowsTwo()
    ensures DotCount() == 2
    ensures Window(Step(TimerFires(Initial), Dot(1))) == Reviews[3..]
    ensures |Window(Step(TimerFires(Initial), Dot(1)))| == 2
  {
    ReviewCount();
  }

  /** There are two dots, and in every reachable state exactly one is highlighted. */
  lemma OneDotHighlighted(s: Slider)
    requires Valid(s)
    ensures DotCount() == 2
    ensures DotHighlighted(s, 0) != DotHighlighted(s, 1)
    ensures forall i :: DotHighlighted(s, i) ==> 0 <= i < DotCount()
  {
    ReviewCount();
  }

  /** The disabled states of the arrows are exactly those in which their
      handlers do nothing. */
  lemma ArrowsMatchHandlers(s: Slider)
    requires Valid(s)
    ensures NextDisabled(s) <==> Next(s) == s
    ensures PrevDisabled(s) <==> Prev(s) == s
  {
  }
}
