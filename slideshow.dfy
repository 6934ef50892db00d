/** The facilities slideshow: five slides, arrows that wrap around, direct selection through the
    indicators and thumbnails, and an autoplay timer that can be paused. */
module GallerySlideshow {

  datatype Slide = Slide(id: nat, title: string, description: string)

  const Slides: seq<Slide> := [
    Slide(1, "Gedung Utama Madrasah", "Fasilitas pembelajaran modern dengan arsitektur Islami"),
    Slide(2, "Ruang Kelas Interaktif", "Pembelajaran dengan teknologi digital dan metode modern"),
    Slide(3, "Masjid Sekolah", "Pusat spiritual dan kegiatan keagamaan siswa"),
    Slide(4, "Laboratorium Sains", "Fasilitas eksperimen dan penelitian ilmiah"),
    Slide(5, "Lab Komputer", "Teknologi terkini untuk pembelajaran digital")
  ]

  const SlideCount: nat := 5

  /** `(prev + 1) % slideshowImages.length`: forward, wrapping from the last slide to the first. */
  function Next(i: nat): (r: nat)
    ensures r < SlideCount
    ensures i + 1 < SlideCount ==> r == i + 1
    ensures i == SlideCount - 1 ==> r == 0
  {
    (i + 1) % SlideCount
  }

  /** `(prev - 1 + length) % length`: back, wrapping from the first slide to the last. */
  function Prev(i: nat): (r: nat)
    ensures r < SlideCount
    ensures 0 < i < SlideCount ==> r == i - 1
    ensures i == 0 ==> r == SlideCount - 1
  {
    (i - 1 + SlideCount) % SlideCount
  }

  lemma PrevUndoesNext(i: nat)
    requires i < SlideCount
    ensures Prev(Next(i)) == i
  {
  }

  lemma NextUndoesPrev(i: nat)
    requires i < SlideCount
    ensures Next(Prev(i)) == i
  {
  }

  /** The slide shown after `k` forward steps (arrow clicks or autoplay ticks) from slide `i`. */
  function Advance(i: nat, k: nat): (r: nat)
    requires i < SlideCount
    ensures r < SlideCount
  {
    if k == 0 then i else Next(Advance(i, k - 1))
  }

  /** `k` forward steps land on slide `(i + k) mod 5`. */
  lemma {:induction false} AdvanceIsModular(i: nat, k: nat)
    requires i < SlideCount
    ensures Advance(i, k) == (i + k) % SlideCount
  {
    if k > 0 {
      AdvanceIsModular(i, k - 1);
      var j := Advance(i, k - 1);
      var q := (i + k - 1) / SlideCount;
      assert i + k - 1 == q * SlideCount + j;
      assert i + k == q * SlideCount + (j + 1);
      if j + 1 < SlideCount {
        assert (i + k) % SlideCount == j + 1;
      } else {
        assert i + k == (q + 1) * SlideCount;
        assert (i + k) % SlideCount == 0;
      }
    }
  }

  /** Five steps come back to where they started. */
  lemma FullCycle(i: nat)
    requires i < SlideCount
    ensures Advance(i, SlideCount) == i
  {
    AdvanceIsModular(i, SlideCount);
  }

  /** Every slide is reached from every other within one cycle of forward steps. */
  lemma EverySlideReachable(i: nat, j: nat)
    requires i < SlideCount && j < SlideCount
    ensures exists k :: 0 <= k < SlideCount && Advance(i, k) == j
  {
    var k := (j - i + SlideCount) % SlideCount;
    AdvanceIsModular(i, k);
    assert Advance(i, k) == j;
  }

  /** The component's state: `currentSlide` and `isPlaying`. */
  class Slideshow {
    var currentSlide: nat
    var isPlaying: bool

    ghost predicate Valid()
      reads this
    {
      currentSlide < SlideCount
    }

    constructor ()
      ensures Valid() && currentSlide == 0 && isPlaying
    {
      currentSlide := 0;
      isPlaying := true;
    }

    /** The slide on screen. */
    function Current(): (s: Slide)
      reads this
      requires Valid()
      ensures s == Slides[currentSlide] && s.id == currentSlide + 1
    {
      Slides[currentSlide]
    }

    method NextSlide()
      requires Valid()
      modifies this`currentSlide
      ensures Valid() && currentSlide == Next(old(currentSlide))
    {
      currentSlide := (currentSlide + 1) % SlideCount;
    }

    method PrevSlide()
      requires Valid()
      modifies this`currentSlide
      ensures Valid() && currentSlide == Prev(old(currentSlide))
    {
      currentSlide := (currentSlide - 1 + SlideCount) % SlideCount;
    }

    method TogglePlay()
      modifies this`isPlaying
      ensures isPlaying == !old(isPlaying)
    {
      isPlaying := !isPlaying;
    }

    /** One firing of the 5-second interval: it is only registered while playing. */
    method Tick()
      requires Valid()
      modifies this`currentSlide
      ensures Valid()
      ensures old(isPlaying) ==> currentSlide == Next(old(currentSlide))
      ensures !old(isPlaying) ==> currentSlide == old(currentSlide)
    {
      if isPlaying {
        currentSlide := (currentSlide + 1) % SlideCount;
      }
    }

    /** An indicator dot or thumbnail: each one is rendered for an index of `Slides`. */
    method Select(index: nat)
      requires index < |Slides|
      modifies this`currentSlide
      ensures Valid() && currentSlide == index
    {
      currentSlide := index;
    }
  }
}
