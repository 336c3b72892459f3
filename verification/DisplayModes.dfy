/** Choosing a display mode: the search of the VBE and of the EFI driver for the best supported
    mode that is not larger than a requested size. */
module DisplayModes {
  datatype Size = Size(width: int, height: int)

  predicate Fits(s: Size, want: Size) {
    s.width <= want.width && s.height <= want.height
  }

  /** At least as large both ways. */
  predicate Covers(a: Size, b: Size) {
    a.width >= b.width && a.height >= b.height
  }

  // ----- the VBE driver -----

  /** Attributes and memory models of a VBE mode. */
  const MODE_SUPPORTED: bv16 := 1
  const MODE_COLOR: bv16 := 8
  const MODE_GRAPHICS: bv16 := 0x10
  const MODE_LFB: bv16 := 0x80
  const MODEL_PACKED: int := 4
  const MODEL_DIRECT: int := 6

  /** A mode of the list of the controller, or the failure of its query. */
  datatype VbeMode = NoInfo | VbeMode(size: Size, attr: bv16, memModel: int, bitsPerPixel: int)

  predicate VbeUsable(m: VbeMode) {
    && m.VbeMode?
    && m.attr & MODE_SUPPORTED != 0 && m.attr & MODE_COLOR != 0
    && m.attr & MODE_GRAPHICS != 0 && m.attr & MODE_LFB != 0
    && (m.memModel == MODEL_PACKED || m.memModel == MODEL_DIRECT)
    && (m.bitsPerPixel == 16 || m.bitsPerPixel == 32)
  }

  /** Bit number n of the attributes is set. */
  predicate Bit(attr: bv16, n: nat)
    requires n < 16
  {
    (attr >> n) & 1 == 1
  }

  /** The query of the mode succeeds, bits 0, 3, 4 and 7 of its attributes are set, its memory model is 4
      or 6, and its pixels have 16 or 32 bits. */
  predicate HasMode(m: VbeMode, want: Size) {
    && m.VbeMode? && Bit(m.attr, 0) && Bit(m.attr, 3) && Bit(m.attr, 4) && Bit(m.attr, 7)
    && m.memModel in {4, 6} && m.bitsPerPixel in {16, 32}
    && m.size.width <= want.width && m.size.height <= want.height
  }

  lemma BitMasks(attr: bv16)
    ensures attr & 1 != 0 <==> (attr >> 0) & 1 == 1
    ensures attr & 8 != 0 <==> (attr >> 3) & 1 == 1
    ensures attr & 0x10 != 0 <==> (attr >> 4) & 1 == 1
    ensures attr & 0x80 != 0 <==> (attr >> 7) & 1 == 1
  {
  }

  lemma UsableIs(m: VbeMode, want: Size)
    ensures VbeUsable(m) && Fits(m.size, want) <==> HasMode(m, want)
  {
    if m.VbeMode? {
      BitMasks(m.attr);
    }
  }

  /** A usable mode of exactly this size, with 32 bits. */
  predicate VbeExact(m: VbeMode, want: Size) {
    VbeUsable(m) && m.size == want && m.bitsPerPixel == 32
  }

  /** A mode of exactly the size, with 32 bits, is usable and fits. */
  lemma ExactIs(m: VbeMode, want: Size)
    ensures VbeExact(m, want) <==> HasMode(m, want) && m.size == want && m.bitsPerPixel == 32
  {
    if m.VbeMode? {
      UsableIs(m, want);
    }
  }

  predicate VbeKnown(modes: seq<VbeMode>) {
    forall i | 0 <= i < |modes| :: modes[i].VbeMode?
  }

  /** The search: the place in the list, and the best mode so far. */
  datatype Search = Search(pos: nat, best: Size, found: bool, modeNum: nat, ended: bool)

  const START: Search := Search(0, Size(0, 0), false, 0, false)

  /** One pass of the search loop. A mode whose query fails is not passed. */
  function VbePass(modes: seq<VbeMode>, want: Size, s: Search): Search {
    if s.ended then s
    else if s.pos >= |modes| then s.(ended := true)
    else
      var m := modes[s.pos];
      if m.NoInfo? then s
      else if VbeExact(m, want) then Search(s.pos, m.size, true, s.pos, true)
      else if VbeUsable(m) && Fits(m.size, want) && Covers(m.size, s.best) then Search(s.pos + 1, m.size, true, s.pos, false)
      else s.(pos := s.pos + 1)
  }

  function VbePasses(modes: seq<VbeMode>, want: Size, n: nat): Search {
    if n == 0 then START else VbePass(modes, want, VbePasses(modes, want, n - 1))
  }

  /** No query that fails comes before the first usable mode of exactly this size. */
  ghost predicate VbeEnds(modes: seq<VbeMode>, want: Size) {
    VbeKnown(modes) || exists i :: 0 <= i < |modes| && VbeExact(modes[i], want) && VbeKnown(modes[..i])
  }

  /** Passes at a failing mode get nowhere. */
  lemma {:induction false} StuckStays(modes: seq<VbeMode>, want: Size, k: nat, n: nat)
    requires var s := VbePasses(modes, want, k); !s.ended && s.pos < |modes| && modes[s.pos].NoInfo?
    requires k <= n
    ensures VbePasses(modes, want, n) == VbePasses(modes, want, k)
    decreases n
  {
    if n > k {
      StuckStays(modes, want, k, n - 1);
    }
  }

  /** A search that has ended stays as it is, so it had not ended before a state in which it has not. */
  lemma {:induction false} EndedStays(modes: seq<VbeMode>, want: Size, k: nat, n: nat)
    requires VbePasses(modes, want, k).ended && k <= n
    ensures VbePasses(modes, want, n) == VbePasses(modes, want, k)
    decreases n
  {
    if n > k {
      EndedStays(modes, want, k, n - 1);
    }
  }

  lemma NeverEnds(modes: seq<VbeMode>, want: Size, k: nat)
    requires var s := VbePasses(modes, want, k); !s.ended && s.pos < |modes| && modes[s.pos].NoInfo?
    ensures forall n: nat :: !VbePasses(modes, want, n).ended
  {
    forall n: nat ensures !VbePasses(modes, want, n).ended {
      if n >= k {
        StuckStays(modes, want, k, n);
      } else if VbePasses(modes, want, n).ended {
        EndedStays(modes, want, n, k);
      }
    }
  }

  /** Where the search stops: at the end of the list, at a mode of exactly the size, or at a query that
      fails. */
  ghost predicate StopsAt(modes: seq<VbeMode>, want: Size, k: nat) {
    && k <= |modes| && (forall j | 0 <= j < k :: modes[j].VbeMode? && !VbeExact(modes[j], want))
    && (k < |modes| ==> modes[k].NoInfo? || VbeExact(modes[k], want))
  }

  lemma SomeStop(modes: seq<VbeMode>, want: Size) returns (k: nat)
    ensures StopsAt(modes, want, k)
  {
    k := 0;
    while k < |modes| && modes[k].VbeMode? && !VbeExact(modes[k], want)
      invariant k <= |modes| && forall j | 0 <= j < k :: modes[j].VbeMode? && !VbeExact(modes[j], want)
    {
      k := k + 1;
    }
  }

  lemma {:induction false} PassesReach(modes: seq<VbeMode>, want: Size, k: nat, n: nat)
    requires StopsAt(modes, want, k) && n <= k
    ensures VbePasses(modes, want, n).pos == n && !VbePasses(modes, want, n).ended
  {
    if n > 0 {
      PassesReach(modes, want, k, n - 1);
    }
  }

  lemma EndsAtStop(modes: seq<VbeMode>, want: Size, k: nat)
    requires StopsAt(modes, want, k)
    ensures VbeEnds(modes, want) <==> k == |modes| || modes[k].VbeMode?
  {
    if k < |modes| && modes[k].VbeMode? {
      assert VbeKnown(modes[..k]);
    } else if k < |modes| {
      forall i | 0 <= i < |modes| && VbeExact(modes[i], want) ensures !VbeKnown(modes[..i]) {
        assert i > k && modes[..i][k].NoInfo?;
      }
    }
  }

  /** The search loop comes to an end if and only if no query that fails comes before the first usable
      mode of exactly the requested size. */
  lemma SearchEndsIff(modes: seq<VbeMode>, want: Size)
    ensures (exists n: nat :: VbePasses(modes, want, n).ended) <==> VbeEnds(modes, want)
  {
    var k := SomeStop(modes, want);
    PassesReach(modes, want, k, k);
    EndsAtStop(modes, want, k);
    if k == |modes| || modes[k].VbeMode? {
      var n := k + 1;
      assert VbePasses(modes, want, n) == VbePass(modes, want, VbePasses(modes, want, k));
      assert VbePasses(modes, want, n).ended;
    } else {
      NeverEnds(modes, want, k);
    }
  }

  /** A list on which the search does not end: the query of its only mode fails. */
  lemma FailingQueryNeverEnds(want: Size, n: nat)
    ensures !VbePasses([NoInfo], want, n).ended
  {
    NeverEnds([NoInfo], want, 0);
  }

  /** The k-th mode is one that can be used and fits, and no such mode is larger one way and not smaller the
      other way. */
  ghost predicate VbeChosen(modes: seq<VbeMode>, want: Size, k: int) {
    && 0 <= k < |modes| && HasMode(modes[k], want)
    && forall j | 0 <= j < |modes| && HasMode(modes[j], want) ::
      Covers(modes[j].size, modes[k].size) ==> modes[j].size == modes[k].size
  }

  /** Of the modes of the same size the search takes the last one, except that it stops at the first one
      of exactly the requested size with 32 bits. */
  ghost predicate VbePreferred(modes: seq<VbeMode>, want: Size, k: int) {
    && 0 <= k < |modes| && modes[k].VbeMode?
    && (forall j | 0 <= j < k :: !VbeExact(modes[j], want))
    && (VbeExact(modes[k], want) || forall j | k < j < |modes| && HasMode(modes[j], want) ::
          !VbeExact(modes[j], want) && !Covers(modes[j].size, modes[k].size))
  }

  /** The search has passed the first i modes: best is the size of mode k, the last of the best ones so far. */
  ghost predicate Searched(modes: seq<VbeMode>, want: Size, i: int, best: Size, found: bool, k: int) {
    && 0 <= i <= |modes| && (if found then 0 <= k < i && HasMode(modes[k], want) && modes[k].size == best else best == Size(0, 0))
    && (forall j | 0 <= j < i :: modes[j].VbeMode? && !VbeExact(modes[j], want))
    && forall j | 0 <= j < i && HasMode(modes[j], want) ::
      found && (Covers(modes[j].size, best) ==> modes[j].size == best && j <= k)
  }

  lemma SearchedAll(modes: seq<VbeMode>, want: Size, best: Size, found: bool, k: int)
    requires Searched(modes, want, |modes|, best, found, k)
    ensures found <==> exists j :: 0 <= j < |modes| && HasMode(modes[j], want)
    ensures found ==> VbeChosen(modes, want, k) && VbePreferred(modes, want, k)
  {
  }

  lemma SearchedTo(modes: seq<VbeMode>, want: Size, i: nat, best: Size, found: bool, k: int)
    requires Searched(modes, want, i, best, found, k) && i < |modes| && VbeExact(modes[i], want)
    ensures VbeChosen(modes, want, i) && VbePreferred(modes, want, i)
  {
    ExactIs(modes[i], want);
  }

  /** One more mode that is not exactly of the size, whether it is taken or not. */
  lemma SearchedNext(modes: seq<VbeMode>, want: Size, i: nat, best: Size, found: bool, k: int)
    requires Searched(modes, want, i, best, found, k) && i < |modes| && modes[i].VbeMode? && !VbeExact(modes[i], want)
    requires modes[i].size.width >= 0 && modes[i].size.height >= 0
    ensures if VbeUsable(modes[i]) && Fits(modes[i].size, want) && Covers(modes[i].size, best)
      then Searched(modes, want, i + 1, modes[i].size, true, i)
      else Searched(modes, want, i + 1, best, found, k)
  {
    UsableIs(modes[i], want);
  }


  /** The search, up to its end or to a mode at which it stays for ever; it takes the best mode of the
      list, and one of exactly the size at once. */
  method VbeQueryMode(modes: seq<VbeMode>, want: Size) returns (ended: bool, found: bool, modeNum: nat, ghost passes: nat)
    requires forall i | 0 <= i < |modes| && modes[i].VbeMode? :: modes[i].size.width >= 0 && modes[i].size.height >= 0
    ensures ended <==> VbeEnds(modes, want)
    ensures ended ==>
      var s := VbePasses(modes, want, passes); s.ended && s.found == found && (found ==> s.modeNum == modeNum)
    ensures ended ==> (found <==> exists j :: 0 <= j < |modes| && HasMode(modes[j], want))
    ensures ended && found ==> VbeChosen(modes, want, modeNum) && VbePreferred(modes, want, modeNum)
  {
    var best := Size(0, 0);
    found, modeNum, passes := false, 0, 0;
    for i := 0 to |modes|
      invariant VbePasses(modes, want, i) == Search(i, best, found, modeNum, false)
      invariant Searched(modes, want, i, best, found, modeNum)
    {
      passes := i + 1;
      var m := modes[i];
      if m.NoInfo? {
        EndsAtStop(modes, want, i);
        return false, false, 0, passes;
      }
      if VbeUsable(m) && m.size == want && m.bitsPerPixel == 32 {
        EndsAtStop(modes, want, i);
        ExactIs(m, want);
        SearchedTo(modes, want, i, best, found, modeNum);
        return true, true, i, passes;
      }
      SearchedNext(modes, want, i, best, found, modeNum);
      if VbeUsable(m) && m.size.width <= want.width && m.size.height <= want.height
        && want.width - m.size.width <= want.width - best.width
        && want.height - m.size.height <= want.height - best.height
      {
        found, best, modeNum := true, m.size, i;
      }
    }
    EndsAtStop(modes, want, |modes|);
    SearchedAll(modes, want, best, found, modeNum);
    passes := |modes| + 1;
    ended := true;
  }

  // ----- the EFI driver -----

  /** A mode of the graphics output protocol, or the failure of its query. */
  datatype GopMode = NoMode | GopMode(size: Size, bltOnly: bool)

  /** The query of the mode succeeds, it can be drawn to, and it fits. */
  predicate GopHas(m: GopMode, want: Size) {
    m.GopMode? && !m.bltOnly && m.size.width <= want.width && m.size.height <= want.height
  }

  ghost predicate GopChosen(modes: seq<GopMode>, want: Size, k: int) {
    && 0 <= k < |modes| && GopHas(modes[k], want)
    && forall j | 0 <= j < |modes| && GopHas(modes[j], want) ::
      Covers(modes[j].size, modes[k].size) ==> modes[j].size == modes[k].size
  }

  /** Of the modes of the same size the search takes the last one, except that it stops at the first one
      of exactly the requested size. */
  ghost predicate GopPreferred(modes: seq<GopMode>, want: Size, k: int) {
    && 0 <= k < |modes| && modes[k].GopMode?
    && (forall j | 0 <= j < k && GopHas(modes[j], want) :: modes[j].size != want)
    && (modes[k].size == want || forall j | k < j < |modes| && GopHas(modes[j], want) ::
          !Covers(modes[j].size, modes[k].size))
  }

  predicate AllKnown(modes: seq<GopMode>) {
    forall i | 0 <= i < |modes| :: modes[i].GopMode?
  }

  /** A usable mode of exactly this size comes before any query that fails. */
  ghost predicate ExactFirst(modes: seq<GopMode>, want: Size) {
    exists i {:trigger modes[i]} | 0 <= i < |modes| && modes[i].GopMode? && !modes[i].bltOnly && modes[i].size == want ::
      AllKnown(modes[..i])
  }

  /** A signed number of 32 bits as it is compared with an unsigned one. */
  function Unsigned32(x: int): int {
    if x < 0 then x + 0x1_0000_0000 else x
  }

  /** The size that the unsigned sizes of modes are compared with, given the one asked for. */
  function Compared(want: Size): Size {
    Size(Unsigned32(want.width), Unsigned32(want.height))
  }

  /** The best mode for the size that is compared, or with matchRequired only one of exactly that size; a
      query that fails before such a mode ends the search. */
  method GopQueryMode(modes: seq<GopMode>, asked: Size, matchRequired: bool) returns (found: bool, modeNum: nat)
    requires forall i | 0 <= i < |modes| && modes[i].GopMode? :: modes[i].size.width >= 0 && modes[i].size.height >= 0
    ensures found <==>
      ExactFirst(modes, Compared(asked))
      || (!matchRequired && AllKnown(modes) && exists j :: 0 <= j < |modes| && GopHas(modes[j], Compared(asked)))
    ensures ExactFirst(modes, Compared(asked)) || (found && matchRequired) ==>
      modeNum < |modes| && modes[modeNum].GopMode? && modes[modeNum].size == Compared(asked)
    ensures found ==> GopChosen(modes, Compared(asked), modeNum) && GopPreferred(modes, Compared(asked), modeNum)
  {
    var want := Compared(asked);
    var best := Size(0, 0);
    found, modeNum := false, 0;
    for i := 0 to |modes|
      invariant forall j | 0 <= j < i :: modes[j].GopMode? && (modes[j].bltOnly || modes[j].size != want)
      invariant !found ==> best == Size(0, 0)
      invariant found ==> !matchRequired && modeNum < i && modes[modeNum].size == best && GopHas(modes[modeNum], want)
      invariant forall j | 0 <= j < i && GopHas(modes[j], want) && !matchRequired ::
        found && (Covers(modes[j].size, best) ==> modes[j].size == best && j <= modeNum)
    {
      if modes[i].NoMode? {
        assert forall j | i < j < |modes| :: modes[..j][i].NoMode?;
        return false, 0;
      }
      var m := modes[i];
      if !m.bltOnly {
        if m.size == want {
          assert AllKnown(modes[..i]);
          return true, i;
        }
        if m.size.width <= want.width && m.size.height <= want.height
          && want.width - m.size.width <= want.width - best.width
          && want.height - m.size.height <= want.height - best.height && !matchRequired
        {
          found, best, modeNum := true, m.size, i;
        }
      }
    }
  }
}
