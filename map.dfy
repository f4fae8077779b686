/** The brush and plane bookkeeping of the map compiler: removing degenerate,
    duplicated and mirrored brush sides, deciding a brush's contents, allocating
    planes in opposite-facing pairs with their hash chains, and splicing an
    entity's brushes and patches into the world entity. */
module XMap {
  import opened QShared

  /** A contents word is modelled as the set of its bit positions: | is union,
      &= ~bit is removal and a test of a single bit is membership. */
  type Flags = set<nat>

  // Content bit positions, from the engine's surface-flag header (Quake III
  // values 0x8000, 0x8000000, 0x10000000 and 0x20000000).
  const CONTENTS_AREAPORTAL: nat := 15
  const CONTENTS_DETAIL: nat := 27
  const CONTENTS_STRUCTURAL: nat := 28
  const CONTENTS_TRANSLUCENT: nat := 29

  const MAX_MAP_PLANES: int := 0x20000
  const PLANE_HASHES: int := 1024

  /** One side of a brush. A shader of 0 stands for a side without shaderInfo. */
  datatype Side = Side(planenum: int, contents: Flags, shader: nat)

  // ---------------------------------------------------------------------------
  // Plane numbers come in pairs: 2k and 2k+1 are the same plane facing both ways.

  /** planenum ^ 1 on a two's-complement int: the other plane of the same pair. */
  function Flip(p: int): (q: int)
    ensures q != p
    ensures q / 2 == p / 2 && q % 2 == 1 - p % 2
  {
    if p % 2 == 0 then p + 1 else p - 1
  }

  lemma FlipFlip(p: int)
    ensures Flip(Flip(p)) == p
  {
  }

  // ---------------------------------------------------------------------------
  // RemoveDuplicateBrushPlanes, as a function on the list of sides.

  datatype Scan = NoMatch | Duplicate | Mirrored

  /** The inner loop over the sides kept so far: the first one that has the same
      plane, or the mirrored plane, decides. */
  function ScanKept(kept: seq<Side>, p: int): Scan
  {
    if kept == [] then NoMatch
    else if p == kept[0].planenum then Duplicate
    else if p == Flip(kept[0].planenum) then Mirrored
    else ScanKept(kept[1..], p)
  }

  /** Processes the sides still to be examined: a degenerate side (plane -1) and
      a duplicate are dropped, a mirrored side stops everything with false. */
  function Dedup(kept: seq<Side>, rest: seq<Side>): (bool, seq<Side>)
    decreases |rest|
  {
    if rest == [] then (true, kept)
    else if rest[0].planenum == -1 then Dedup(kept, rest[1..])
    else match ScanKept(kept, rest[0].planenum)
      case NoMatch => Dedup(kept + [rest[0]], rest[1..])
      case Duplicate => Dedup(kept, rest[1..])
      case Mirrored => (false, kept + rest)
  }

  /** The whole function: side 0 is kept untested, examination starts at side 1.
      The second component is the list of sides left in the brush. */
  function RemoveDuplicates(s: seq<Side>): (bool, seq<Side>)
  {
    if |s| <= 1 then (true, s) else Dedup(s[..1], s[1..])
  }

  /** A side takes part in the mirror test: side 0 always, any other side unless
      it is degenerate (and then removed first). */
  ghost predicate Eligible(s: seq<Side>, i: int)
    requires 0 <= i < |s|
  {
    i == 0 || s[i].planenum != -1
  }

  ghost predicate HasMirror(s: seq<Side>)
  {
    exists i, j :: 0 <= i < j < |s| && Eligible(s, i) && Eligible(s, j) && s[j].planenum == Flip(s[i].planenum)
  }

  ghost predicate DistinctPlanes(s: seq<Side>)
  {
    forall i, j :: 0 <= i < j < |s| ==> s[i].planenum != s[j].planenum
  }

  ghost predicate NoMirroredPair(s: seq<Side>)
  {
    forall i, j :: 0 <= i < j < |s| ==> s[j].planenum != Flip(s[i].planenum)
  }

  /** a is b with some elements deleted, the rest in their original order. */
  ghost predicate IsSubsequence(a: seq<Side>, b: seq<Side>)
    decreases |b|
  {
    if a == [] then true
    else if b == [] then false
    else if a[0] == b[0] then IsSubsequence(a[1..], b[1..])
    else IsSubsequence(a, b[1..])
  }

  lemma {:induction false} SubsequenceReflexive(a: seq<Side>)
    ensures IsSubsequence(a, a)
    decreases |a|
  {
    if a != [] {
      SubsequenceReflexive(a[1..]);
    }
  }

  lemma {:induction false} SubsequenceDropHead(a: seq<Side>, b: seq<Side>)
    requires a != [] && IsSubsequence(a, b)
    ensures IsSubsequence(a[1..], b)
    decreases |b|, 0
  {
    if a[1..] != [] {
      if a[0] == b[0] {
        SubsequenceSkip(a[1..], b[1..], b[0]);
      } else {
        SubsequenceDropHead(a, b[1..]);
        SubsequenceSkip(a[1..], b[1..], b[0]);
      }
      assert b == [b[0]] + b[1..];
    }
  }

  lemma {:induction false} SubsequenceSkip(a: seq<Side>, b: seq<Side>, x: Side)
    requires IsSubsequence(a, b)
    ensures IsSubsequence(a, [x] + b)
    decreases |b|, 1
  {
    assert ([x] + b)[1..] == b;
    if a != [] && a[0] == x {
      SubsequenceDropHead(a, b);
    }
  }

  lemma SplitHead(r: seq<Side>, i: nat)
    requires i < |r|
    ensures r[i..] == [r[i]] + r[i + 1..]
  {
  }

  lemma {:induction false} DedupKeepsPrefix(kept: seq<Side>, rest: seq<Side>)
    ensures var r := Dedup(kept, rest).1;
      |kept| <= |r| && r[..|kept|] == kept && IsSubsequence(r[|kept|..], rest)
    decreases |rest|
  {
    if rest == [] {
    } else if rest[0].planenum == -1 {
      DedupKeepsPrefix(kept, rest[1..]);
      SubsequenceSkip(Dedup(kept, rest[1..]).1[|kept|..], rest[1..], rest[0]);
      assert rest == [rest[0]] + rest[1..];
    } else {
      match ScanKept(kept, rest[0].planenum)
      case NoMatch =>
        var r := Dedup(kept + [rest[0]], rest[1..]).1;
        DedupKeepsPrefix(kept + [rest[0]], rest[1..]);
        assert r[..|kept|] == (r[..|kept| + 1])[..|kept|];
        assert r[|kept|] == (r[..|kept| + 1])[|kept|] == rest[0];
        var t := r[|kept| + 1..];
        SplitHead(r, |kept|);
        assert IsSubsequence(t, rest[1..]);
        assert ([rest[0]] + t)[1..] == t;
        assert rest == [rest[0]] + rest[1..];
      case Duplicate =>
        DedupKeepsPrefix(kept, rest[1..]);
        SubsequenceSkip(Dedup(kept, rest[1..]).1[|kept|..], rest[1..], rest[0]);
        assert rest == [rest[0]] + rest[1..];
      case Mirrored =>
        assert (kept + rest)[|kept|..] == rest;
        SubsequenceReflexive(rest);
    }
  }

  lemma {:induction false} ScanNoMatch(kept: seq<Side>, p: int)
    requires ScanKept(kept, p) == NoMatch
    ensures forall k :: 0 <= k < |kept| ==> p != kept[k].planenum && p != Flip(kept[k].planenum)
    decreases |kept|
  {
    if kept != [] {
      ScanNoMatch(kept[1..], p);
      assert forall k :: 1 <= k < |kept| ==> kept[k] == kept[1..][k - 1];
    }
  }

  lemma {:induction false} ScanFound(kept: seq<Side>, p: int)
    ensures ScanKept(kept, p) == Duplicate ==> exists k :: 0 <= k < |kept| && p == kept[k].planenum
    ensures ScanKept(kept, p) == Mirrored ==> exists k :: 0 <= k < |kept| && p == Flip(kept[k].planenum)
    decreases |kept|
  {
    if kept != [] && p != kept[0].planenum && p != Flip(kept[0].planenum) {
      ScanFound(kept[1..], p);
      if ScanKept(kept, p) == Duplicate {
        var k :| 0 <= k < |kept| - 1 && p == kept[1..][k].planenum;
        assert p == kept[k + 1].planenum;
      }
      if ScanKept(kept, p) == Mirrored {
        var k :| 0 <= k < |kept| - 1 && p == Flip(kept[1..][k].planenum);
        assert p == Flip(kept[k + 1].planenum);
      }
    }
  }

  ghost predicate CleanTail(s: seq<Side>)
  {
    forall k :: 1 <= k < |s| ==> s[k].planenum != -1
  }

  /** When the answer is true, the sides left are pairwise distinct, have no
      mirrored pair, and none after side 0 is degenerate. */
  lemma {:induction false} DedupSound(kept: seq<Side>, rest: seq<Side>)
    requires |kept| >= 1 && DistinctPlanes(kept) && NoMirroredPair(kept) && CleanTail(kept)
    ensures var r := Dedup(kept, rest);
      r.0 ==> DistinctPlanes(r.1) && NoMirroredPair(r.1) && CleanTail(r.1)
    decreases |rest|
  {
    if rest != [] && rest[0].planenum != -1 {
      var x := rest[0];
      if ScanKept(kept, x.planenum) == NoMatch {
        ScanNoMatch(kept, x.planenum);
        var k2 := kept + [x];
        assert forall i :: 0 <= i < |kept| ==> k2[i] == kept[i];
        DedupSound(k2, rest[1..]);
      } else if ScanKept(kept, x.planenum) == Duplicate {
        DedupSound(kept, rest[1..]);
      }
    } else if rest != [] {
      DedupSound(kept, rest[1..]);
    }
  }

  /** When the answer is true, every plane of an eligible side is still present. */
  lemma {:induction false} DedupComplete(s: seq<Side>, kept: seq<Side>, n: nat)
    requires 1 <= n <= |s|
    ensures var r := Dedup(kept, s[n..]);
      r.0 ==> forall j :: n <= j < |s| && s[j].planenum != -1 ==>
        exists m :: 0 <= m < |r.1| && r.1[m].planenum == s[j].planenum
    decreases |s| - n
  {
    if n < |s| {
      var x := s[n];
      assert s[n..][0] == x && s[n..][1..] == s[n + 1..];
      var r := Dedup(kept, s[n..]);
      if x.planenum == -1 {
        DedupComplete(s, kept, n + 1);
      } else {
        match ScanKept(kept, x.planenum)
        case NoMatch =>
          DedupComplete(s, kept + [x], n + 1);
          DedupKeepsPrefix(kept + [x], s[n + 1..]);
          assert r.1[|kept|] == x;
        case Duplicate =>
          DedupComplete(s, kept, n + 1);
          DedupKeepsPrefix(kept, s[n + 1..]);
          ScanFound(kept, x.planenum);
          var k :| 0 <= k < |kept| && x.planenum == kept[k].planenum;
          assert r.1[k] == kept[k];
        case Mirrored =>
      }
    }
  }

  /** Plane p is that of an eligible side among the first n. */
  ghost predicate SeenBefore(s: seq<Side>, n: int, p: int)
  {
    exists i :: 0 <= i < n && i < |s| && Eligible(s, i) && s[i].planenum == p
  }

  /** When the answer is false, the input had an eligible mirrored pair. */
  lemma {:induction false} DedupFalseMirror(s: seq<Side>, kept: seq<Side>, n: nat)
    requires 1 <= n <= |s|
    requires forall k :: 0 <= k < |kept| ==> SeenBefore(s, n, kept[k].planenum)
    ensures !Dedup(kept, s[n..]).0 ==> HasMirror(s)
    decreases |s| - n
  {
    if n < |s| {
      var x := s[n];
      assert s[n..][0] == x && s[n..][1..] == s[n + 1..];
      forall k | 0 <= k < |kept|
        ensures SeenBefore(s, n + 1, kept[k].planenum)
      {
        var i :| 0 <= i < n && i < |s| && Eligible(s, i) && s[i].planenum == kept[k].planenum;
      }
      if x.planenum == -1 {
        DedupFalseMirror(s, kept, n + 1);
      } else {
        match ScanKept(kept, x.planenum)
        case NoMatch =>
          var k2 := kept + [x];
          forall k | 0 <= k < |k2|
            ensures SeenBefore(s, n + 1, k2[k].planenum)
          {
            if k == |kept| {
              assert Eligible(s, n) && s[n].planenum == k2[k].planenum;
            } else {
              assert k2[k] == kept[k];
            }
          }
          DedupFalseMirror(s, k2, n + 1);
        case Duplicate =>
          DedupFalseMirror(s, kept, n + 1);
        case Mirrored =>
          ScanFound(kept, x.planenum);
          var k :| 0 <= k < |kept| && x.planenum == Flip(kept[k].planenum);
          var i :| 0 <= i < n && i < |s| && Eligible(s, i) && s[i].planenum == kept[k].planenum;
          assert Eligible(s, n);
          assert s[n].planenum == Flip(s[i].planenum);
      }
    }
  }

  /** Properties of RemoveDuplicateBrushPlanes' result: side 0 stays first, the
      survivors keep their order, and on success they are clean. */
  lemma RemoveDuplicatesSound(s: seq<Side>)
    ensures var r := RemoveDuplicates(s);
      && |r.1| <= |s|
      && (|s| > 0 ==> |r.1| > 0 && r.1[0] == s[0])
      && IsSubsequence(r.1, s)
      && (r.0 ==> DistinctPlanes(r.1) && NoMirroredPair(r.1) && CleanTail(r.1))
  {
    if |s| <= 1 {
      SubsequenceReflexive(s);
    } else {
      DedupKeepsPrefix(s[..1], s[1..]);
      DedupSound(s[..1], s[1..]);
      var r := RemoveDuplicates(s).1;
      assert r[0] == r[..1][0] == s[0];
      assert r[1..] == r[|s[..1]|..];
      assert IsSubsequence(r[1..], s[1..]);
      SubsequenceLength(r[1..], s[1..]);
    }
  }

  lemma {:induction false} SubsequenceLength(a: seq<Side>, b: seq<Side>)
    requires IsSubsequence(a, b)
    ensures |a| <= |b|
    decreases |b|
  {
    if a != [] {
      if a[0] == b[0] {
        SubsequenceLength(a[1..], b[1..]);
      } else {
        SubsequenceLength(a, b[1..]);
      }
    }
  }

  /** On success, no plane of an eligible side is lost: only exact duplicates go. */
  lemma RemoveDuplicatesKeepsPlanes(s: seq<Side>)
    ensures var r := RemoveDuplicates(s);
      r.0 ==> forall j :: 0 <= j < |s| && Eligible(s, j) ==>
        exists m :: 0 <= m < |r.1| && r.1[m].planenum == s[j].planenum
  {
    var r := RemoveDuplicates(s);
    if |s| > 1 && r.0 {
      DedupComplete(s, s[..1], 1);
      DedupKeepsPrefix(s[..1], s[1..]);
      forall j | 0 <= j < |s| && Eligible(s, j)
        ensures exists m :: 0 <= m < |r.1| && r.1[m].planenum == s[j].planenum
      {
        if j == 0 {
          assert r.1[0] == r.1[..1][0] == s[0];
        }
      }
    } else if r.0 {
      forall j | 0 <= j < |s| && Eligible(s, j)
        ensures exists m :: 0 <= m < |r.1| && r.1[m].planenum == s[j].planenum
      {
        assert r.1[j] == s[j];
      }
    }
  }

  /** RemoveDuplicateBrushPlanes answers false exactly when two eligible sides lie
      on the same plane facing opposite ways. */
  lemma RemoveDuplicatesFalseIffMirror(s: seq<Side>)
    ensures !RemoveDuplicates(s).0 <==> HasMirror(s)
  {
    var r := RemoveDuplicates(s);
    if !r.0 {
      forall k | 0 <= k < |s[..1]|
        ensures SeenBefore(s, 1, s[..1][k].planenum)
      {
        assert Eligible(s, 0);
      }
      DedupFalseMirror(s, s[..1], 1);
    } else {
      RemoveDuplicatesSound(s);
      RemoveDuplicatesKeepsPlanes(s);
      forall i, j | 0 <= i < j < |s| && Eligible(s, i) && Eligible(s, j)
        ensures s[j].planenum != Flip(s[i].planenum)
      {
        var mi :| 0 <= mi < |r.1| && r.1[mi].planenum == s[i].planenum;
        var mj :| 0 <= mj < |r.1| && r.1[mj].planenum == s[j].planenum;
        FlipFlip(s[i].planenum);
        if mi < mj {
          assert r.1[mj].planenum != Flip(r.1[mi].planenum);
        } else if mj < mi {
          assert r.1[mi].planenum != Flip(r.1[mj].planenum);
        }
      }
    }
  }

  // ---------------------------------------------------------------------------
  // SetBrushContents, as functions.

  /** The contents accumulated by the loop: side 0's contents, or-ed with those of
      every side among 1..n-1 that has a shader. */
  function OrContents(s: seq<Side>, n: nat): Flags
    requires 1 <= n <= |s|
  {
    if n == 1 then s[0].contents
    else if s[n - 1].shader != 0 then OrContents(s, n - 1) + s[n - 1].contents
    else OrContents(s, n - 1)
  }

  /** Side i's contents take part in the or over the first n sides. */
  ghost predicate Contributes(s: seq<Side>, n: nat, i: int)
  {
    i == 0 || (1 <= i < n && i < |s| && s[i].shader != 0)
  }

  /** A bit is in OrContents exactly when some contributing side has it. */
  lemma {:induction false} OrContentsBits(s: seq<Side>, n: nat, bit: nat)
    requires 1 <= n <= |s|
    ensures bit in OrContents(s, n) <==> exists i :: 0 <= i < n && Contributes(s, n, i) && bit in s[i].contents
  {
    if n > 1 {
      OrContentsBits(s, n - 1, bit);
      if bit in OrContents(s, n) {
        if bit in OrContents(s, n - 1) {
          var i :| 0 <= i < n - 1 && Contributes(s, n - 1, i) && bit in s[i].contents;
          assert Contributes(s, n, i);
        } else {
          assert Contributes(s, n, n - 1) && bit in s[n - 1].contents;
        }
      }
      if exists i :: 0 <= i < n && Contributes(s, n, i) && bit in s[i].contents {
        var i :| 0 <= i < n && Contributes(s, n, i) && bit in s[i].contents;
        if i < n - 1 {
          assert Contributes(s, n - 1, i);
        }
      }
    } else {
      assert Contributes(s, n, 0);
    }
  }

  /** The three adjustments applied after the loop, in source order: a brush
      both detail and structural is structural, fulldetail clears detail, and a
      translucent brush not marked structural becomes detail. */
  function FinalContents(c: Flags, fulldetail: bool): (r: Flags)
    ensures r - {CONTENTS_DETAIL} == c - {CONTENTS_DETAIL}
    ensures CONTENTS_DETAIL in r <==>
      || (CONTENTS_TRANSLUCENT in c && CONTENTS_STRUCTURAL !in c)
      || (CONTENTS_DETAIL in c && CONTENTS_STRUCTURAL !in c && !fulldetail)
  {
    var c1 := if CONTENTS_DETAIL in c && CONTENTS_STRUCTURAL in c then c - {CONTENTS_DETAIL} else c;
    var c2 := if fulldetail then c1 - {CONTENTS_DETAIL} else c1;
    if CONTENTS_TRANSLUCENT in c2 && CONTENTS_STRUCTURAL !in c2 then c2 + {CONTENTS_DETAIL} else c2
  }

  // ---------------------------------------------------------------------------
  // Planes.

  datatype Vec3 = Vec3(x: real, y: real, z: real)

  /** The plane type is PlaneTypeForNormal's answer for the normal: below 3 means
      axial. */
  datatype Plane = Plane(normal: Vec3, dist: real, planeType: int)

  /** VectorSubtract(vec3_origin, normal, ...) and -dist: the same plane facing away. */
  function Opposite(p: Plane): (q: Plane)
    ensures q.planeType == p.planeType && q.dist == -p.dist
  {
    Plane(Vec3(-p.normal.x, -p.normal.y, -p.normal.z), -p.dist, p.planeType)
  }

  lemma OppositeInvolutive(p: Plane)
    ensures Opposite(Opposite(p)) == p
  {
  }

  function Abs(r: real): real { if r < 0.0 then -r else r }

  /** (int)fabs(dist) / 8, masked with PLANE_HASHES - 1. */
  function PlaneHash(dist: real): (h: int)
    ensures 0 <= h < PLANE_HASHES
  {
    (Abs(dist).Floor / 8) % PLANE_HASHES
  }

  /** A plane and its opposite always share a bucket. */
  lemma PlaneHashOpposite(p: Plane)
    ensures PlaneHash(Opposite(p).dist) == PlaneHash(p.dist)
  {
  }

  /** The entities of the map whose brush and patch lists get spliced. */
  class Entity {
    var brushes: seq<int>
    var patches: seq<int>

    constructor (brushes: seq<int>, patches: seq<int>)
      ensures this.brushes == brushes && this.patches == patches
    {
      this.brushes := brushes;
      this.patches := patches;
    }
  }

  /** A brush being built: its sides and the values SetBrushContents derives. */
  class Brush {
    var sides: array<Side>
    var numsides: int
    var contents: Flags
    var contentShader: nat
    var detail: bool
    var isOpaque: bool

    ghost predicate Valid()
      reads this
    {
      0 <= numsides <= sides.Length
    }

    constructor (sides: array<Side>, numsides: int)
      requires 0 <= numsides <= sides.Length
      ensures Valid() && this.sides == sides && this.numsides == numsides
    {
      this.sides := sides;
      this.numsides := numsides;
    }

    /** Removes sides[i] by moving every later side one slot down. */
    method RemoveSide(i: int)
      requires Valid() && 0 <= i < numsides
      modifies this`numsides, sides
      ensures Valid() && numsides == old(numsides) - 1
      ensures sides[..numsides] == old(sides[..i]) + old(sides[i + 1..numsides])
      ensures sides[..i] == old(sides[..i]) && sides[i..numsides] == old(sides[i + 1..numsides])
      ensures forall k :: old(numsides) <= k < sides.Length ==> sides[k] == old(sides[k])
    {
      var k := i + 1;
      while k < numsides
        invariant numsides == old(numsides)
        invariant i + 1 <= k <= numsides
        invariant sides[..i] == old(sides[..i])
        invariant sides[i..k - 1] == old(sides[i + 1..k])
        invariant sides[k - 1..] == old(sides[k - 1..])
      {
        sides[k - 1] := sides[k];
        k := k + 1;
      }
      numsides := numsides - 1;
    }

    /** The inner loop of RemoveDuplicateBrushPlanes: compares side i with
        every side kept before it. */
    method ScanSides(i: int) returns (scan: Scan)
      requires Valid() && 0 <= i < numsides
      ensures scan == ScanKept(sides[..i], sides[i].planenum)
    {
      var j := 0;
      scan := NoMatch;
      while j < i
        invariant 0 <= j <= i
        invariant ScanKept(sides[..i], sides[i].planenum) == ScanKept(sides[j..i], sides[i].planenum)
      {
        assert sides[j..i] == [sides[j]] + sides[j + 1..i];
        if sides[i].planenum == sides[j].planenum {
          return Duplicate;
        }
        if sides[i].planenum == Flip(sides[j].planenum) {
          return Mirrored;
        }
        j := j + 1;
      }
    }

    /** RemoveDuplicateBrushPlanes: compacts the sides in place and answers
        whether the brush is free of mirrored sides. */
    method RemoveDuplicatePlanes() returns (ok: bool)
      requires Valid()
      modifies this`numsides, sides
      ensures Valid()
      ensures (ok, sides[..numsides]) == RemoveDuplicates(old(sides[..numsides]))
      ensures forall k :: old(numsides) <= k < sides.Length ==> sides[k] == old(sides[k])
    {
      ghost var s := sides[..numsides];
      if numsides >= 1 {
        assert sides[..1] == s[..1] && sides[1..numsides] == s[1..];
        assert numsides == 1 ==> s[..1] == s;
      }
      var i := 1;
      while i < numsides
        invariant Valid() && 1 <= i && numsides <= old(numsides)
        invariant numsides == 0 ==> s == []
        invariant numsides >= 1 ==> i <= numsides && Dedup(sides[..i], sides[i..numsides]) == RemoveDuplicates(s)
        invariant forall k :: old(numsides) <= k < sides.Length ==> sides[k] == old(sides[k])
        decreases numsides - i
      {
        ghost var kept := sides[..i];
        ghost var rest := sides[i..numsides];
        assert rest[0] == sides[i];
        if sides[i].planenum == -1 {
          RemoveSide(i);
          continue;
        }
        var scan := ScanSides(i);
        if scan == Mirrored {
          assert kept + rest == sides[..numsides];
          return false;
        } else if scan == Duplicate {
          RemoveSide(i);
        } else {
          assert sides[..i + 1] == kept + [rest[0]];
          assert sides[i + 1..numsides] == rest[1..];
          i := i + 1;
        }
      }
      if numsides >= 1 {
        assert sides[i..numsides] == [];
        assert sides[..i] == sides[..numsides];
      }
      return true;
    }
  }

  /** Planes 2k and 2k+1 face opposite ways. */
  ghost predicate PairedPlanes(planes: seq<Plane>)
  {
    |planes| % 2 == 0 && forall k :: 0 <= k < |planes| / 2 ==> planes[2 * k + 1] == Opposite(planes[2 * k])
  }

  /** Every bucket is empty (-1) or starts at a plane hashed to that bucket. */
  ghost predicate HeadsHashed(heads: seq<int>, planes: seq<Plane>)
  {
    forall h :: 0 <= h < |heads| ==>
      heads[h] == -1 || (0 <= heads[h] < |planes| && PlaneHash(planes[heads[h]].dist) == h)
  }

  /** Every chain link ends the chain (-1) or points to an older plane of the
      same bucket, so chains are finite and never leave their bucket. */
  ghost predicate ChainsHashed(chain: seq<int>, planes: seq<Plane>)
  {
    |chain| == |planes| && forall k :: 0 <= k < |planes| ==>
      chain[k] == -1 || (0 <= chain[k] < k && PlaneHash(planes[chain[k]].dist) == PlaneHash(planes[k].dist))
  }

  lemma PairedAppend(planes: seq<Plane>, a: Plane, b: Plane)
    requires PairedPlanes(planes) && (b == Opposite(a) || a == Opposite(b))
    ensures PairedPlanes(planes + [a, b])
  {
    var t := planes + [a, b];
    var n := |planes| / 2;
    OppositeInvolutive(a);
    OppositeInvolutive(b);
    assert t[2 * n + 1] == Opposite(t[2 * n]);
    forall k | 0 <= k < |t| / 2
      ensures t[2 * k + 1] == Opposite(t[2 * k])
    {
      if k < n {
        assert t[2 * k + 1] == planes[2 * k + 1] && t[2 * k] == planes[2 * k];
      }
    }
  }

  /** Pushing plane p on its bucket keeps the heads and chains well formed. */
  lemma PushKeepsHashed(heads: seq<int>, chain: seq<int>, planes: seq<Plane>, p: int)
    requires HeadsHashed(heads, planes) && ChainsHashed(chain, planes)
    requires |heads| == PLANE_HASHES && 0 <= p < |planes| && chain[p] == -1
    requires forall h :: 0 <= h < |heads| ==> heads[h] < p
    ensures var h := PlaneHash(planes[p].dist);
      HeadsHashed(heads[h := p], planes) && ChainsHashed(chain[p := heads[h]], planes)
  {
  }

  lemma AppendKeepsHashed(heads: seq<int>, chain: seq<int>, planes: seq<Plane>, more: seq<Plane>)
    requires HeadsHashed(heads, planes) && ChainsHashed(chain, planes)
    ensures HeadsHashed(heads, planes + more)
    ensures ChainsHashed(chain + seq(|more|, _ => -1), planes + more)
  {
    var c := chain + seq(|more|, _ => -1);
    var t := planes + more;
    forall k | 0 <= k < |t|
      ensures c[k] == -1 || (0 <= c[k] < k && PlaneHash(t[c[k]].dist) == PlaneHash(t[k].dist))
    {
      if k < |planes| {
        assert c[k] == chain[k] && t[k] == planes[k];
      }
    }
  }

  /** The map compiler's global state touched by the core: the plane table with
      its hash, and the brush counters. */
  class MapCompiler {
    var mapPlanes: seq<Plane>
    var hashChain: seq<int>
    var planehash: array<int>
    var fulldetail: bool
    var c_detail: int
    var c_structural: int
    var c_areaportals: int

    /** Planes are stored in opposite-facing pairs, and every hash bucket holds a
        chain of planes of that bucket, each link pointing to an older plane. */
    ghost predicate Valid()
      reads this, planehash
    {
      && planehash.Length == PLANE_HASHES
      && |mapPlanes| <= MAX_MAP_PLANES
      && PairedPlanes(mapPlanes)
      && HeadsHashed(planehash[..], mapPlanes)
      && ChainsHashed(hashChain, mapPlanes)
    }

    constructor (fulldetail: bool)
      ensures Valid() && mapPlanes == [] && fresh(planehash)
      ensures this.fulldetail == fulldetail && c_detail == c_structural == c_areaportals == 0
    {
      mapPlanes := [];
      hashChain := [];
      planehash := new int[PLANE_HASHES](_ => -1);
      this.fulldetail := fulldetail;
      c_detail, c_structural, c_areaportals := 0, 0, 0;
    }

    /** AddPlaneToHash: pushes plane p on the head of its bucket's chain. */
    method AddPlaneToHash(p: int)
      requires planehash.Length == PLANE_HASHES && 0 <= p < |mapPlanes|
      requires HeadsHashed(planehash[..], mapPlanes) && ChainsHashed(hashChain, mapPlanes)
      requires hashChain[p] == -1 && forall h :: 0 <= h < PLANE_HASHES ==> planehash[h] < p
      modifies this`hashChain, planehash
      ensures HeadsHashed(planehash[..], mapPlanes) && ChainsHashed(hashChain, mapPlanes)
      ensures var h := PlaneHash(mapPlanes[p].dist);
        && planehash[..] == old(planehash[..])[h := p]
        && hashChain == old(hashChain)[p := old(planehash[h])]
    {
      var hash := PlaneHash(mapPlanes[p].dist);
      PushKeepsHashed(planehash[..], hashChain, mapPlanes, p);
      hashChain := hashChain[p := planehash[hash]];
      planehash[hash] := p;
    }

    /** CreateNewFloatPlane. A normal shorter than 0.5 (squared length below 0.25)
        gives -1; running out of room is fatal; otherwise two planes are appended
        and the number of the one facing the given way is returned. */
    method CreateNewFloatPlane(normal: Vec3, dist: real, planeType: int) returns (r: Outcome<int>)
      requires Valid()
      modifies this`mapPlanes, this`hashChain, planehash
      ensures Valid()
      ensures normal.x * normal.x + normal.y * normal.y + normal.z * normal.z < 0.25 ==>
        r == Done(-1) && mapPlanes == old(mapPlanes) && hashChain == old(hashChain)
        && planehash[..] == old(planehash[..])
      ensures (normal.x * normal.x + normal.y * normal.y + normal.z * normal.z >= 0.25
        && old(|mapPlanes|) + 2 > MAX_MAP_PLANES) ==>
        r.Fatal? && mapPlanes == old(mapPlanes) && hashChain == old(hashChain)
        && planehash[..] == old(planehash[..])
      ensures (normal.x * normal.x + normal.y * normal.y + normal.z * normal.z >= 0.25
        && old(|mapPlanes|) + 2 <= MAX_MAP_PLANES) ==>
        var n := old(|mapPlanes|);
        var flipped := planeType < 3 && (normal.x < 0.0 || normal.y < 0.0 || normal.z < 0.0);
        && r == Done(if flipped then n + 1 else n)
        && |mapPlanes| == n + 2
        && mapPlanes[..n] == old(mapPlanes)
        && mapPlanes[r.value] == Plane(normal, dist, planeType)
        && mapPlanes[Flip(r.value)] == Opposite(Plane(normal, dist, planeType))
        && planehash[..] == old(planehash[..])[PlaneHash(dist) := n + 1]
        && hashChain == old(hashChain) + [old(planehash[PlaneHash(dist)]), n]
    {
      if normal.x * normal.x + normal.y * normal.y + normal.z * normal.z < 0.25 {
        return Done(-1);
      }
      if |mapPlanes| + 2 > MAX_MAP_PLANES {
        return Fatal("MAX_MAP_PLANES");
      }
      var p := Plane(normal, dist, planeType);
      var flipped := planeType < 3 && (normal.x < 0.0 || normal.y < 0.0 || normal.z < 0.0);
      PlaneHashOpposite(p);
      if flipped {
        // the pair is stored the other way round: flip order
        AppendPair(Opposite(p), p);
        r := Done(|mapPlanes| - 1);
      } else {
        AppendPair(p, Opposite(p));
        r := Done(|mapPlanes| - 2);
      }
    }

    /** The tail of CreateNewFloatPlane: stores a pair of opposite planes and
        hashes the first, then the second. */
    method AppendPair(a: Plane, b: Plane)
      requires Valid() && |mapPlanes| + 2 <= MAX_MAP_PLANES
      requires b == Opposite(a) || a == Opposite(b)
      requires PlaneHash(a.dist) == PlaneHash(b.dist)
      modifies this`mapPlanes, this`hashChain, planehash
      ensures Valid()
      ensures mapPlanes == old(mapPlanes) + [a, b]
      ensures var n := old(|mapPlanes|);
        && planehash[..] == old(planehash[..])[PlaneHash(a.dist) := n + 1]
        && hashChain == old(hashChain) + [old(planehash[PlaneHash(a.dist)]), n]
    {
      var n := |mapPlanes|;
      AppendKeepsHashed(planehash[..], hashChain, mapPlanes, [a, b]);
      assert seq(2, _ => -1) == [-1, -1];
      PairedAppend(mapPlanes, a, b);
      mapPlanes := mapPlanes + [a, b];
      hashChain := hashChain + [-1, -1];
      AddPlaneToHash(n);
      AddPlaneToHash(n + 1);
      assert planehash[PlaneHash(a.dist)] == planehash[..][PlaneHash(a.dist)];
    }

    /** SetBrushContents: or-s the side contents together, applies the detail and
        structural rules, and derives detail, isOpaque and the counters. */
    method SetBrushContents(b: Brush)
      requires b.Valid() && b.sides.Length >= 1
      modifies this`c_detail, this`c_structural, this`c_areaportals, b`contents, b`contentShader, b`detail, b`isOpaque
      ensures var c := FinalContents(OrContents(b.sides[..], if b.numsides < 1 then 1 else b.numsides), fulldetail);
        && b.contents == c
        && b.contentShader == b.sides[0].shader
        && b.detail == (CONTENTS_DETAIL in c)
        && b.isOpaque == (CONTENTS_TRANSLUCENT !in c)
        && c_detail == old(c_detail) + (if b.detail then 1 else 0)
        && c_structural == old(c_structural) + (if b.detail then 0 else 1)
        && c_areaportals == old(c_areaportals) + (if CONTENTS_AREAPORTAL in c then 1 else 0)
    {
      var contents := b.sides[0].contents;
      b.contentShader := b.sides[0].shader;
      var i := 1;
      while i < b.numsides
        invariant 1 <= i <= (if b.numsides < 1 then 1 else b.numsides)
        invariant contents == OrContents(b.sides[..], i)
      {
        var s := b.sides[i];
        if s.shader != 0 && s.contents != contents {
          contents := contents + s.contents;
        }
        i := i + 1;
      }
      contents := FinalContents(contents, fulldetail);
      if CONTENTS_DETAIL in contents {
        c_detail := c_detail + 1;
        b.detail := true;
      } else {
        c_structural := c_structural + 1;
        b.detail := false;
      }
      b.isOpaque := CONTENTS_TRANSLUCENT !in contents;
      if CONTENTS_AREAPORTAL in contents {
        c_areaportals := c_areaportals + 1;
      }
      b.contents := contents;
    }
  }

  // ---------------------------------------------------------------------------
  // Moving an entity's brushes and patches to the world entity.

  function Reversed(s: seq<int>): (r: seq<int>)
    ensures |r| == |s|
  {
    if s == [] then [] else Reversed(s[1..]) + [s[0]]
  }

  lemma {:induction false} ReversedMultiset(s: seq<int>)
    ensures multiset(Reversed(s)) == multiset(s)
  {
    if s != [] {
      ReversedMultiset(s[1..]);
      assert s == [s[0]] + s[1..];
    }
  }

  lemma {:induction false} ReversedSnoc(s: seq<int>, x: int)
    ensures Reversed(s + [x]) == [x] + Reversed(s)
  {
    if s != [] {
      assert (s + [x])[1..] == s[1..] + [x];
      ReversedSnoc(s[1..], x);
    } else {
      assert Reversed([x]) == Reversed([]) + [x];
    }
  }

  /** MoveBrushesToWorld: each brush is pushed on the head of the world's list in
      turn, so the entity's brushes end up reversed in front of the world's. */
  method MoveBrushesToWorld(mapent: Entity, world: Entity)
    requires mapent != world
    modifies mapent, world
    ensures mapent.brushes == []
    ensures world.brushes == Reversed(old(mapent.brushes)) + old(world.brushes)
    ensures mapent.patches == old(mapent.patches) && world.patches == old(world.patches)
    ensures multiset(world.brushes) == multiset(old(mapent.brushes)) + multiset(old(world.brushes))
  {
    var list := mapent.brushes;
    var i := 0;
    while i < |list|
      invariant 0 <= i <= |list|
      invariant world.brushes == Reversed(list[..i]) + old(world.brushes)
      invariant mapent.brushes == list
      invariant mapent.patches == old(mapent.patches) && world.patches == old(world.patches)
    {
      ReversedSnoc(list[..i], list[i]);
      assert list[..i + 1] == list[..i] + [list[i]];
      world.brushes := [list[i]] + world.brushes;
      i := i + 1;
    }
    assert list[..i] == list;
    mapent.brushes := [];
    ReversedMultiset(list);
  }

  /** MovePatchesToWorld: the entity's whole list is linked, in order, in front of
      the world's; nothing happens when the entity has no patches. */
  method MovePatchesToWorld(mapent: Entity, world: Entity)
    requires mapent != world
    modifies mapent, world
    ensures old(mapent.patches) == [] ==> mapent.patches == [] && world.patches == old(world.patches)
    ensures old(mapent.patches) != [] ==> mapent.patches == [] && world.patches == old(mapent.patches) + old(world.patches)
    ensures mapent.brushes == old(mapent.brushes) && world.brushes == old(world.brushes)
  {
    if mapent.patches != [] {
      var last := 0;
      while last + 1 < |mapent.patches|
        invariant 0 <= last < |mapent.patches|
      {
        last := last + 1;
      }
      world.patches := mapent.patches[..last + 1] + world.patches;
      mapent.patches := [];
    }
  }
}
