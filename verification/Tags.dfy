/** Tags and their round-robin allocation (client/mux.go, lines 25-47). */
module Tags {
  import opened Bytes

  type Tag = uint16

  const NO_TAG: Tag := 0xFFFF
  const TAG_SPACE: nat := 0x1_0000
  const PROBES: nat := 0xFFFF    // one less than the number of tag values

  /** The tag a counter value stands for; the counter wraps at 16 bits. */
  function TagAt(ctr: nat): Tag
  {
    ctr % TAG_SPACE
  }

  predicate Usable(t: Tag, busy: set<Tag>)
  {
    t != NO_TAG && t !in busy
  }

  /** The first counter value at or after ctr, within `tries` values, whose tag is usable. */
  function Probe(busy: set<Tag>, ctr: nat, tries: nat): Option<nat>
    decreases tries
  {
    if tries == 0 then None
    else if Usable(TagAt(ctr), busy) then Some(ctr)
    else Probe(busy, ctr + 1, tries - 1)
  }

  lemma {:induction false} ProbeFindsFirst(busy: set<Tag>, ctr: nat, tries: nat)
    ensures match Probe(busy, ctr, tries)
            case Some(c) =>
              && ctr <= c < ctr + tries && Usable(TagAt(c), busy)
              && forall d :: ctr <= d < c ==> !Usable(TagAt(d), busy)
            case None => forall d :: ctr <= d < ctr + tries ==> !Usable(TagAt(d), busy)
    decreases tries
  {
    hide TagAt;
    if tries > 0 && !Usable(TagAt(ctr), busy) {
      ProbeFindsFirst(busy, ctr + 1, tries - 1);
    }
  }

  /** The one tag a full set of probes never looks at: the one just before the counter. */
  function Unprobed(ctr: nat): Tag
  {
    TagAt(ctr + PROBES)
  }

  lemma EveryOtherTagIsProbed(ctr: nat, t: Tag) returns (d: nat)
    requires t != Unprobed(ctr)
    ensures ctr <= d < ctr + PROBES && TagAt(d) == t
  {
    var k := t - TagAt(ctr);
    d := if k >= 0 then ctr + k else ctr + k + TAG_SPACE;
    var q := ctr / TAG_SPACE;
    assert ctr == q * TAG_SPACE + TagAt(ctr);
    assert d == q * TAG_SPACE + t || d == (q + 1) * TAG_SPACE + t;
  }

  lemma ProbedIsNotUnprobed(ctr: nat, d: nat)
    requires ctr <= d < ctr + PROBES
    ensures TagAt(d) != Unprobed(ctr)
  {
    WithinACycle(d, ctr + PROBES);
  }

  /** Counter values less than a full cycle apart stand for different tags. */
  lemma WithinACycle(c1: nat, c2: nat)
    requires c1 < c2 < c1 + TAG_SPACE
    ensures TagAt(c1) != TagAt(c2)
  {
  }

  /** Allocation succeeds exactly when some usable tag is free other than the unprobed one. */
  lemma SucceedsIff(busy: set<Tag>, ctr: nat)
    ensures Probe(busy, ctr, PROBES).Some? <==> exists t: Tag :: Usable(t, busy) && t != Unprobed(ctr)
  {
    hide TagAt, Unprobed;
    ProbeFindsFirst(busy, ctr, PROBES);
    if Probe(busy, ctr, PROBES).Some? {
      var c := Probe(busy, ctr, PROBES).value;
      ProbedIsNotUnprobed(ctr, c);
      assert Usable(TagAt(c), busy);
    } else {
      forall t: Tag | Usable(t, busy)
        ensures t == Unprobed(ctr)
      {
        if t != Unprobed(ctr) {
          var d := EveryOtherTagIsProbed(ctr, t);
        }
      }
    }
  }

  /** Two free tags are always enough. */
  lemma TwoFreeTagsSuffice(busy: set<Tag>, ctr: nat, t: Tag, u: Tag)
    requires t != u && Usable(t, busy) && Usable(u, busy)
    ensures Probe(busy, ctr, PROBES).Some?
  {
    SucceedsIff(busy, ctr);
  }

  function TagsBelow(n: nat): (s: set<Tag>)
    requires n <= TAG_SPACE
    ensures forall t: Tag :: t in s <==> t < n
    ensures |s| == n
  {
    if n == 0 then {} else TagsBelow(n - 1) + {n - 1}
  }

  /** A failed allocation means at least 65534 tags are taken; failing twice in a row, with no
      change between, means all 65535 usable ones are. */
  lemma FailureMeansFull(busy: set<Tag>, ctr: nat)
    requires Probe(busy, ctr, PROBES) == None
    ensures |busy - {NO_TAG}| >= 65534
    ensures Probe(busy, ctr + PROBES, PROBES) == None ==> |busy - {NO_TAG}| == 65535
  {
    hide TagAt, Probe, TagsBelow;
    var all, taken := TagsBelow(PROBES), busy - {NO_TAG};
    AllTaken(busy, ctr);
    assert all - {Unprobed(ctr)} <= taken <= all;
    SubsetSize(all - {Unprobed(ctr)}, taken);
    SubsetSize(taken, all);
    if Probe(busy, ctr + PROBES, PROBES) == None {
      AllTaken(busy, ctr + PROBES);
      WithinACycle(ctr + PROBES, ctr + PROBES + PROBES);
      assert all <= taken;
    }
  }

  lemma AllTaken(busy: set<Tag>, ctr: nat)
    requires Probe(busy, ctr, PROBES) == None
    ensures forall t: Tag :: t < PROBES && t != TagAt(ctr + PROBES) ==> t in busy - {NO_TAG}
  {
    hide TagAt, Probe;
    SucceedsIff(busy, ctr);
    assert forall t: Tag :: t < PROBES && t !in busy ==> Usable(t, busy);
  }

  lemma SubsetSize<T>(a: set<T>, b: set<T>)
    requires a <= b
    ensures |a| <= |b|
    ensures |a| == |b| ==> a == b
  {
    assert b == a + (b - a);
    assert |b| == |a| + |b - a|;
  }
}
