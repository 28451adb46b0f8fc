/** The testimonial carousel on the home page: a current slide that moves
    with wrap-around, and an autoplay flag that any manual move switches off. */
module Testimonials {

  datatype Carousel = Carousel(currentIndex: int, isAutoPlaying: bool)

  predicate InRange(c: Carousel, n: nat) {
    0 <= c.currentIndex < n
  }

  /** `(prev + 1) % n`. */
  function Succ(i: int, n: nat): (j: int)
    requires n > 0 && 0 <= i < n
    ensures 0 <= j < n
    ensures j == if i == n - 1 then 0 else i + 1
  {
    (i + 1) % n
  }

  /** `(prev - 1 + n) % n`. */
  function Pred(i: int, n: nat): (j: int)
    requires n > 0 && 0 <= i < n
    ensures 0 <= j < n
    ensures j == if i == 0 then n - 1 else i - 1
  {
    (i - 1 + n) % n
  }

  /** `goToNext`: the next slide, wrapping to the first; autoplay off. */
  function GoToNext(c: Carousel, n: nat): (r: Carousel)
    requires n > 0 && InRange(c, n)
    ensures InRange(r, n) && !r.isAutoPlaying
    ensures r.currentIndex == if c.currentIndex == n - 1 then 0 else c.currentIndex + 1
  {
    Carousel(Succ(c.currentIndex, n), false)
  }

  /** `goToPrevious`: the previous slide, wrapping to the last; autoplay off. */
  function GoToPrevious(c: Carousel, n: nat): (r: Carousel)
    requires n > 0 && InRange(c, n)
    ensures InRange(r, n) && !r.isAutoPlaying
    ensures r.currentIndex == if c.currentIndex == 0 then n - 1 else c.currentIndex - 1
  {
    Carousel(Pred(c.currentIndex, n), false)
  }

  /** `goToSlide(k)`: exactly slide `k`; autoplay off. */
  function GoToSlide(c: Carousel, k: int): (r: Carousel)
    ensures r.currentIndex == k && !r.isAutoPlaying
  {
    Carousel(k, false)
  }

  /** The interval callback: advances only while autoplay is on (the
      interval is cleared when it goes off). */
  function Tick(c: Carousel, n: nat): (r: Carousel)
    requires n > 0 && InRange(c, n)
    ensures InRange(r, n) && r.isAutoPlaying == c.isAutoPlaying
    ensures !c.isAutoPlaying ==> r == c
    ensures c.isAutoPlaying ==> r.currentIndex == GoToNext(c, n).currentIndex
  {
    if c.isAutoPlaying then c.(currentIndex := Succ(c.currentIndex, n)) else c
  }

  /** The mouse enters the card: autoplay pauses. */
  function MouseEnter(c: Carousel): (r: Carousel)
    ensures !r.isAutoPlaying && r.currentIndex == c.currentIndex
  {
    c.(isAutoPlaying := false)
  }

  /** The mouse leaves the card: autoplay resumes. */
  function MouseLeave(c: Carousel): (r: Carousel)
    ensures r.isAutoPlaying && r.currentIndex == c.currentIndex
  {
    c.(isAutoPlaying := true)
  }

  /** Previous undoes next, and next undoes previous, on the index. */
  lemma PreviousUndoesNext(c: Carousel, n: nat)
    requires n > 0 && InRange(c, n)
    ensures GoToPrevious(GoToNext(c, n), n).currentIndex == c.currentIndex
    ensures GoToNext(GoToPrevious(c, n), n).currentIndex == c.currentIndex
  {
  }

  /** `k` autoplay ticks. */
  function Ticks(c: Carousel, n: nat, k: nat): (r: Carousel)
    requires n > 0 && InRange(c, n)
    ensures InRange(r, n)
  {
    if k == 0 then c else Tick(Ticks(c, n, k - 1), n)
  }

  /** While autoplaying, `k` ticks move `k` slides on, modulo `n`; `n`
      ticks come back to the start. */
  lemma {:induction false} TicksAdvance(c: Carousel, n: nat, k: nat)
    requires n > 0 && InRange(c, n) && c.isAutoPlaying
    ensures Ticks(c, n, k).currentIndex == (c.currentIndex + k) % n
    ensures Ticks(c, n, k).isAutoPlaying
  {
    if k > 0 {
      TicksAdvance(c, n, k - 1);
      var i := c.currentIndex + k - 1;
      assert (i % n + 1) % n == (i + 1) % n by {
        ModSucc(i, n);
      }
    }
  }

  lemma ModSucc(i: int, n: nat)
    requires n > 0 && i >= 0
    ensures (i % n + 1) % n == (i + 1) % n
  {
    var q, r := i / n, i % n;
    if r + 1 == n {
      ModUnique(r + 1, n, 1, 0);
      ModUnique(i + 1, n, q + 1, 0);
    } else {
      ModUnique(r + 1, n, 0, r + 1);
      ModUnique(i + 1, n, q, r + 1);
    }
  }

  /** The remainder is the unique `r` in [0, n) with a = q * n + r. */
  lemma ModUnique(a: int, n: nat, q: int, r: int)
    requires n > 0 && 0 <= r < n && a == q * n + r
    ensures a % n == r
  {
    var q', r' := a / n, a % n;
    assert a == q' * n + r';
    var d := q - q';
    assert d * n == r' - r by {
      assert q * n - q' * n == (q - q') * n;
    }
    if d > 0 {
      assert d * n >= n by { MulAtLeast(d, n); }
    } else if d < 0 {
      assert (-d) * n >= n by { MulAtLeast(-d, n); }
    }
  }

  lemma MulAtLeast(d: int, n: nat)
    requires d >= 1
    ensures d * n >= n
  {
    assert d * n == (d - 1) * n + n;
  }

  /** `k` clicks on the next arrow. */
  function Nexts(c: Carousel, n: nat, k: nat): (r: Carousel)
    requires n > 0 && InRange(c, n)
    ensures InRange(r, n)
  {
    if k == 0 then c else GoToNext(Nexts(c, n, k - 1), n)
  }

  /** `k` clicks on next move `k` slides on, modulo `n`, and `n` clicks
      come back to the start. */
  lemma {:induction false} NextsAdvance(c: Carousel, n: nat, k: nat)
    requires n > 0 && InRange(c, n)
    ensures Nexts(c, n, k).currentIndex == (c.currentIndex + k) % n
    ensures k == n ==> Nexts(c, n, k).currentIndex == c.currentIndex
  {
    if k > 0 {
      NextsAdvance(c, n, k - 1);
      ModSucc(c.currentIndex + k - 1, n);
    }
    if k == n {
      ModUnique(c.currentIndex + n, n, 1, c.currentIndex);
    }
  }

  /** A full cycle of autoplay returns to the starting slide. */
  lemma FullCycle(c: Carousel, n: nat)
    requires n > 0 && InRange(c, n) && c.isAutoPlaying
    ensures Ticks(c, n, n).currentIndex == c.currentIndex
  {
    TicksAdvance(c, n, n);
    ModUnique(c.currentIndex + n, n, 1, c.currentIndex);
  }
}
