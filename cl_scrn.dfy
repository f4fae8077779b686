/** The client's screen helpers in cl_scrn.c: string length and text
    measurement that skip colour escapes, the glyph cell of a character in the
    16 x 16 character sheet, the debug graph's ring of samples, the recursion
    guard of SCR_UpdateScreen and the wide-screen test. The renderer is outside
    the model: what would be drawn is a result. */
module ClScrn {
  import opened QShared

  /** Q_COLOR_ESCAPE (Quake III value). */
  const COLOR_ESCAPE: char := '^'
  // SMALLCHAR_WIDTH and SMALLCHAR_HEIGHT (Quake III values).
  const SMALLCHAR_WIDTH: int := 8
  const SMALLCHAR_HEIGHT: int := 16
  /** Width of a character in SCR_GetBigStringWidth. */
  const BIGCHAR_WIDTH: int := 16
  /** The number of samples the debug graph keeps. */
  const GRAPH_SLOTS: int := 1024

  // ---------------------------------------------------------------------------
  // Colour escapes, SCR_Strlen and SCR_GetBigStringWidth

  /** The C string ends at i: past the sequence or at a NUL. */
  predicate EndAt(s: string, i: nat) {
    i >= |s| || s[i] == '\0'
  }

  /** Q_IsColorString at s + i: an escape followed by a character that is
      neither NUL nor another escape. */
  predicate EscapeAt(s: string, i: nat) {
    i + 1 < |s| && s[i] == COLOR_ESCAPE && s[i + 1] != COLOR_ESCAPE && s[i + 1] != '\0'
  }

  /** The characters of the C string from i on that are drawn: colour
      escapes and the character after each are skipped. */
  function VisibleFrom(s: string, i: nat): seq<char>
    decreases |s| - i
  {
    if EndAt(s, i) then []
    else if EscapeAt(s, i) then VisibleFrom(s, i + 2)
    else [s[i]] + VisibleFrom(s, i + 1)
  }

  /** One step of the walk: an escape is skipped with its colour
      character, any other character is drawn. */
  lemma VisibleStep(s: string, i: nat)
    requires !EndAt(s, i)
    ensures EscapeAt(s, i) ==> VisibleFrom(s, i) == VisibleFrom(s, i + 2)
    ensures !EscapeAt(s, i) ==> VisibleFrom(s, i) == [s[i]] + VisibleFrom(s, i + 1)
  {
  }

  function Visible(s: string): seq<char> {
    VisibleFrom(s, 0)
  }

  /** The drawn characters are characters of the string, in order, and never
      more than strlen of it. */
  lemma {:induction false} VisibleFromBound(s: string, i: nat)
    requires i <= |s|
    ensures |VisibleFrom(s, i)| <= |CString(s[i..])|
    ensures '\0' !in VisibleFrom(s, i)
    decreases |s| - i
  {
    if EndAt(s, i) {
    } else if EscapeAt(s, i) {
      VisibleFromBound(s, i + 2);
      assert s[i..][1..][1..] == s[i + 2..];
      assert CString(s[i..]) == [s[i], s[i + 1]] + CString(s[i + 2..]);
    } else {
      VisibleFromBound(s, i + 1);
      assert s[i..][1..] == s[i + 1..];
    }
  }

  /** A string without escapes is drawn in full, up to its NUL. */
  lemma {:induction false} VisiblePlain(s: string, i: nat)
    requires i <= |s|
    requires COLOR_ESCAPE !in s
    ensures VisibleFrom(s, i) == CString(s[i..])
    decreases |s| - i
  {
    if !EndAt(s, i) {
      assert s[i] != COLOR_ESCAPE;
      VisiblePlain(s, i + 1);
      assert s[i..][1..] == s[i + 1..];
    }
  }

  /** A colour code in front of a string takes no width. */
  lemma ColorPrefixInvisible(c: char, s: string)
    requires c != COLOR_ESCAPE && c != '\0'
    ensures Visible([COLOR_ESCAPE, c] + s) == Visible(s)
  {
    var t := [COLOR_ESCAPE, c] + s;
    assert EscapeAt(t, 0);
    VisibleFromShift([COLOR_ESCAPE, c], s, 0);
  }

  /** Prepending characters shifts the positions of the rest. */
  lemma {:induction false} VisibleFromShift(p: string, s: string, i: nat)
    requires i <= |s|
    ensures VisibleFrom(p + s, |p| + i) == VisibleFrom(s, i)
    decreases |s| - i
  {
    var t := p + s;
    assert EndAt(t, |p| + i) <==> EndAt(s, i);
    if !EndAt(s, i) {
      assert EscapeAt(t, |p| + i) <==> EscapeAt(s, i);
      if EscapeAt(s, i) {
        VisibleFromShift(p, s, i + 2);
      } else {
        VisibleFromShift(p, s, i + 1);
      }
    }
  }

  /** SCR_Strlen: the number of characters drawn. */
  method Strlen(s: string) returns (count: nat)
    ensures count == |Visible(s)|
  {
    count := 0;
    var i := 0;
    while !EndAt(s, i)
      invariant i <= |s|
      invariant count + |VisibleFrom(s, i)| == |Visible(s)|
      decreases |s| - i
    {
      if EscapeAt(s, i) {
        i := i + 2;
      } else {
        count := count + 1;
        i := i + 1;
      }
    }
  }

  /** SCR_GetBigStringWidth: 16 pixels per drawn character. */
  method BigStringWidth(s: string) returns (width: int)
    ensures width == BIGCHAR_WIDTH * |Visible(s)|
    ensures width <= BIGCHAR_WIDTH * |CString(s)|
  {
    var n := Strlen(s);
    VisibleFromBound(s, 0);
    width := n * BIGCHAR_WIDTH;
  }

  // ---------------------------------------------------------------------------
  // SCR_Text_Width and SCR_Text_Height

  /** The metrics of a font glyph that the measurement reads. */
  datatype Glyph = Glyph(xSkip: int, height: int)

  /** How many characters the measurement may take: strlen, or limit when
      it is positive and smaller. */
  function MeasureLength(s: string, limit: int): nat {
    var len := |CString(s)|;
    if limit > 0 && len > limit then limit else len
  }

  /** The characters measured: the first drawn characters, up to the
      length above. */
  function Measured(s: string, limit: int): (r: seq<char>)
    ensures |r| <= |Visible(s)| && r == Visible(s)[..|r|]
  {
    var v := Visible(s);
    var n := MeasureLength(s, limit);
    if n < |v| then v[..n] else v
  }

  /** At most min(strlen, limit) characters are measured for a positive
      limit, and all drawn characters otherwise. */
  lemma MeasuredCount(s: string, limit: int)
    ensures limit > 0 ==> |Measured(s, limit)| == Min(|Visible(s)|, limit)
    ensures limit <= 0 ==> Measured(s, limit) == Visible(s)
  {
    VisibleFromBound(s, 0);
  }

  function Min(a: int, b: int): int {
    if a < b then a else b
  }

  /** The summed advances of the characters. */
  function Advance(font: char -> Glyph, t: seq<char>): int {
    if t == [] then 0 else Advance(font, t[..|t| - 1]) + font(t[|t| - 1]).xSkip
  }

  /** The tallest glyph among the characters, and 0 when there are none. */
  function Tallest(font: char -> Glyph, t: seq<char>): int {
    if t == [] then 0
    else
      var m := Tallest(font, t[..|t| - 1]);
      var h := font(t[|t| - 1]).height;
      if m < h then h else m
  }

  /** Glyphs that all advance by the same amount give a width proportional
      to the count. */
  lemma {:induction false} AdvanceUniform(font: char -> Glyph, t: seq<char>, k: int)
    requires forall c :: c in t ==> font(c).xSkip == k
    ensures Advance(font, t) == k * |t|
  {
    if t != [] {
      assert forall c :: c in t[..|t| - 1] ==> c in t;
      AdvanceUniform(font, t[..|t| - 1], k);
    }
  }

  /** The height is at least 0 and every measured glyph's height, and is
      either 0 or the height of one of them. */
  lemma {:induction false} TallestIsMax(font: char -> Glyph, t: seq<char>)
    ensures Tallest(font, t) >= 0
    ensures forall c :: c in t ==> font(c).height <= Tallest(font, t)
    ensures Tallest(font, t) == 0 || exists c :: c in t && font(c).height == Tallest(font, t)
  {
    if t != [] {
      var u := t[..|t| - 1];
      TallestIsMax(font, u);
      assert t == u + [t[|t| - 1]];
      assert forall c :: c in t ==> c in u || c == t[|t| - 1];
    }
  }

  /** One more character adds its advance and may raise the height. */
  lemma MeasureStep(font: char -> Glyph, t: seq<char>, c: char)
    ensures Advance(font, t + [c]) == Advance(font, t) + font(c).xSkip
    ensures Tallest(font, t + [c]) == if Tallest(font, t) < font(c).height then font(c).height else Tallest(font, t)
  {
    assert (t + [c])[..|t|] == t;
  }

  /** The loop of SCR_Text_Width and SCR_Text_Height, before the scaling:
      walks the text, skipping escapes, until len characters are taken. */
  method MeasureLoop(s: string, len: nat, font: char -> Glyph) returns (width: int, height: int, ghost taken: seq<char>)
    ensures taken == Visible(s)[..Min(|Visible(s)|, len)]
    ensures width == Advance(font, taken) && height == Tallest(font, taken)
  {
    width, height, taken := 0, 0, [];
    var count := 0;
    var i := 0;
    while !EndAt(s, i) && count < len
      invariant i <= |s|
      invariant count == |taken| <= len
      invariant Visible(s) == taken + VisibleFrom(s, i)
      invariant width == Advance(font, taken) && height == Tallest(font, taken)
      decreases |s| - i
    {
      VisibleStep(s, i);
      if EscapeAt(s, i) {
        i := i + 2;
        continue;
      }
      var glyph := font(s[i]);
      width := width + glyph.xSkip;
      if height < glyph.height {
        height := glyph.height;
      }
      ConcatAssoc(taken, [s[i]], VisibleFrom(s, i + 1));
      MeasureStep(font, taken, s[i]);
      taken := taken + [s[i]];
      i := i + 1;
      count := count + 1;
    }
    assert Visible(s)[..|taken|] == taken;
    if count < len {
      assert VisibleFrom(s, i) == [];
    }
  }

  /** SCR_Text_Width without the float scale: the advances of the measured
      characters; 0 for a null text. */
  method TextWidth(text: Option<string>, limit: int, font: char -> Glyph) returns (width: int)
    ensures text.None? ==> width == 0
    ensures text.Some? ==> width == Advance(font, Measured(text.value, limit))
  {
    width := 0;
    if text.Some? {
      var s := text.value;
      var len := MeasureLength(s, limit);
      var height;
      ghost var taken;
      width, height, taken := MeasureLoop(s, len, font);
    }
  }

  /** SCR_Text_Height without the float scale: the tallest measured glyph;
      0 for a null text. */
  method TextHeight(text: Option<string>, limit: int, font: char -> Glyph) returns (height: int)
    ensures text.None? ==> height == 0
    ensures text.Some? ==> height == Tallest(font, Measured(text.value, limit))
  {
    height := 0;
    if text.Some? {
      var s := text.value;
      var len := MeasureLength(s, limit);
      var width;
      ghost var taken;
      width, height, taken := MeasureLoop(s, len, font);
    }
  }

  // ---------------------------------------------------------------------------
  // SCR_DrawChar and SCR_DrawSmallChar

  /** The cell of the character sheet a character is drawn from: ch & 255,
      split into row ch >> 4 and column ch & 15; a space is not drawn. On a
      two's-complement int, & 255 is the remainder modulo 256. */
  function CharCell(ch: int): (r: Option<(int, int)>)
    ensures r.None? <==> ch % 256 == ' ' as int
    ensures r.Some? ==> 0 <= r.value.0 < 16 && 0 <= r.value.1 < 16
    ensures r.Some? ==> r.value.0 * 16 + r.value.1 == ch % 256
  {
    var c := ch % 256;
    if c == ' ' as int then None else Some((c / 16, c % 16))
  }

  /** Two characters share a cell only if they agree in their low byte. */
  lemma CellsDistinct(a: int, b: int)
    requires CharCell(a).Some? && CharCell(a) == CharCell(b)
    ensures a % 256 == b % 256
  {
  }

  /** The texture rectangle of a cell: a sixteenth of the sheet each way. */
  datatype TexRect = TexRect(s0: real, t0: real, s1: real, t1: real)

  function CellRect(row: int, col: int): (r: TexRect)
    requires 0 <= row < 16 && 0 <= col < 16
    ensures 0.0 <= r.s0 < r.s1 <= 1.0 && 0.0 <= r.t0 < r.t1 <= 1.0
    ensures r.s1 - r.s0 == 0.0625 && r.t1 - r.t0 == 0.0625
  {
    var fcol := col as real * 0.0625;
    var frow := row as real * 0.0625;
    TexRect(fcol, frow, fcol + 0.0625, frow + 0.0625)
  }

  /** Distinct cells have disjoint rectangles. */
  lemma CellRectsDisjoint(r1: int, c1: int, r2: int, c2: int)
    requires 0 <= r1 < 16 && 0 <= c1 < 16 && 0 <= r2 < 16 && 0 <= c2 < 16
    requires (r1, c1) != (r2, c2)
    ensures var a, b := CellRect(r1, c1), CellRect(r2, c2);
      a.s1 <= b.s0 || b.s1 <= a.s0 || a.t1 <= b.t0 || b.t1 <= a.t0
  {
  }

  /** SCR_DrawSmallChar: the rectangle drawn at native size, or nothing for
      a space or a character wholly above the screen. */
  function SmallChar(y: int, ch: int): (r: Option<TexRect>)
    ensures r.Some? <==> ch % 256 != ' ' as int && y >= -SMALLCHAR_HEIGHT
  {
    match CharCell(ch)
    case None => None
    case Some(cell) => if y < -SMALLCHAR_HEIGHT then None else Some(CellRect(cell.0, cell.1))
  }

  /** SCR_DrawChar: the same at a virtual size. */
  function BigChar(y: int, size: real, ch: int): (r: Option<TexRect>)
    ensures r.Some? <==> ch % 256 != ' ' as int && y as real >= -size
  {
    match CharCell(ch)
    case None => None
    case Some(cell) => if (y as real) < -size then None else Some(CellRect(cell.0, cell.1))
  }

  // ---------------------------------------------------------------------------
  // SCR_DebugGraph and SCR_DrawDebugGraph

  datatype Sample = Sample(value: real, color: int)

  /** The slot column a of the graph is drawn from: (current - 1 - a + 1024)
      & 1023, the remainder modulo 1024 on a two's-complement int. */
  function Slot(current: int, a: int): (r: int)
    ensures 0 <= r < GRAPH_SLOTS
  {
    (current - 1 - a + GRAPH_SLOTS) % GRAPH_SLOTS
  }

  /** Columns 1024 apart read the same slot, so a screen wider than the ring
      repeats the graph. */
  lemma SlotRepeats(current: int, a: int)
    ensures Slot(current, a + GRAPH_SLOTS) == Slot(current, a)
  {
    var x := current - 1 - a + GRAPH_SLOTS;
    assert x - GRAPH_SLOTS == (x - GRAPH_SLOTS) % GRAPH_SLOTS + ((x - GRAPH_SLOTS) / GRAPH_SLOTS) * GRAPH_SLOTS;
    assert x == (x - GRAPH_SLOTS) % GRAPH_SLOTS + ((x - GRAPH_SLOTS) / GRAPH_SLOTS + 1) * GRAPH_SLOTS;
  }

  /** For one of the latest 1024 samples, the slot is where it was stored. */
  lemma SlotOfRecent(current: int, a: int)
    requires 0 <= a < current
    ensures Slot(current, a) == (current - 1 - a) % GRAPH_SLOTS
  {
  }

  /** A column past the samples recorded so far reads a slot no sample has
      reached yet. */
  lemma SlotOfUnreached(current: int, a: int)
    requires 0 <= current <= a < GRAPH_SLOTS
    ensures current <= Slot(current, a)
  {
  }

  /** Two numbers less than the ring size apart have distinct remainders. */
  lemma SlotsApart(j: int, k: int)
    requires j < k < j + GRAPH_SLOTS
    ensures j % GRAPH_SLOTS != k % GRAPH_SLOTS
  {
    var qj, qk := j / GRAPH_SLOTS, k / GRAPH_SLOTS;
    assert j == qj * GRAPH_SLOTS + j % GRAPH_SLOTS;
    assert k == qk * GRAPH_SLOTS + k % GRAPH_SLOTS;
  }

  /** The static ring of samples and its counter. */
  class DebugGraph {
    var current: nat
    var values: array<Sample>
    /** Every sample ever recorded, oldest first. */
    ghost var history: seq<Sample>

    /** The counter counts the samples, and the ring holds the latest 1024 of
        them, each at its count modulo 1024. */
    ghost predicate Valid()
      reads this, values
    {
      values.Length == GRAPH_SLOTS && current == |history|
      && (forall k :: 0 <= k < |history| && |history| - k <= GRAPH_SLOTS ==> values[k % GRAPH_SLOTS] == history[k])
      && forall k :: |history| <= k < GRAPH_SLOTS ==> values[k] == Sample(0.0, 0)
    }

    constructor ()
      ensures Valid() && history == [] && fresh(values)
    {
      current := 0;
      values := new Sample[GRAPH_SLOTS](_ => Sample(0.0, 0));
      history := [];
    }

    /** SCR_DebugGraph: stores the sample at current & 1023 and counts it. */
    method Add(value: real, color: int)
      requires Valid()
      modifies this, values
      ensures Valid() && values == old(values)
      ensures history == old(history) + [Sample(value, color)]
    {
      var slot := current % GRAPH_SLOTS;
      values[slot] := Sample(value, color);
      current := current + 1;
      history := history + [Sample(value, color)];
      forall k | 0 <= k < |history| && |history| - k <= GRAPH_SLOTS
        ensures values[k % GRAPH_SLOTS] == history[k]
      {
        if k < |history| - 1 {
          SlotsApart(k, |history| - 1);
        }
      }
    }

    /** The samples SCR_DrawDebugGraph reads for columns a = 0 .. w-1, from
      the right edge leftwards: column a shows the a-th most recent sample
      while there is one and a < 1024, and repeats every 1024 columns. */
    method Columns(w: nat) returns (r: seq<Sample>)
      requires Valid()
      ensures |r| == w
      ensures forall a :: 0 <= a < w ==> r[a] == values[Slot(current, a)]
      ensures forall a :: 0 <= a < w && a < GRAPH_SLOTS && a < |history| ==> r[a] == history[|history| - 1 - a]
      ensures forall a :: |history| <= a < w && a < GRAPH_SLOTS ==> r[a] == Sample(0.0, 0)
      ensures forall a :: GRAPH_SLOTS <= a < w ==> r[a] == r[a - GRAPH_SLOTS]
    {
      r := [];
      var a := 0;
      while a < w
        invariant 0 <= a <= w && |r| == a
        invariant forall b :: 0 <= b < a ==> r[b] == values[Slot(current, b)]
      {
        var i := Slot(current, a);
        r := r + [values[i]];
        a := a + 1;
      }
      forall a | 0 <= a < w && a < GRAPH_SLOTS && a < |history|
        ensures r[a] == history[|history| - 1 - a]
      {
        SlotOfRecent(current, a);
      }
      forall a | |history| <= a < w && a < GRAPH_SLOTS
        ensures r[a] == Sample(0.0, 0)
      {
        SlotOfUnreached(current, a);
      }
      forall a | GRAPH_SLOTS <= a < w
        ensures r[a] == r[a - GRAPH_SLOTS]
      {
        SlotRepeats(current, a - GRAPH_SLOTS);
      }
    }
  }

  // ---------------------------------------------------------------------------
  // SCR_UpdateScreen's recursion guard
  //
  // The drawing can call back into SCR_UpdateScreen (to flush text to the
  // screen). A call is modelled by how many times it is re-entered, one inside
  // the other, below it.

  /** The guard as written, on entry with the counter at recursive and the
      call re-entered depth times below: whether it raises the fatal error,
      and the counter on return. Each entry increments the counter, tests it
      against 2, sets it to 1, draws, and sets it to 0. */
  function GuardAsWritten(recursive: int, depth: nat): (r: (bool, int))
    decreases depth
  {
    if recursive + 1 > 2 then (true, recursive + 1)
    else if depth == 0 then (false, 0)
    else
      var inner := GuardAsWritten(1, depth - 1);
      if inner.0 then inner else (false, 0)
  }

  /** As written the error is never raised, however deep the re-entry, once
      the counter starts from its resting value. */
  lemma {:induction false} GuardNeverFires(recursive: int, depth: nat)
    requires recursive <= 1
    ensures GuardAsWritten(recursive, depth) == (false, 0)
    decreases depth
  {
    if depth > 0 {
      GuardNeverFires(1, depth - 1);
    }
  }

  /** Three nested updates pass the guard as written. */
  lemma ThreeDeepPasses()
    ensures !GuardAsWritten(0, 2).0
  {
    GuardNeverFires(0, 2);
  }

  /** The guard as intended: a depth counter, incremented on entry and
      decremented on exit, that fails the third nested call. */
  function GuardCounted(recursive: int, depth: nat): (r: (bool, int))
    decreases depth
  {
    if recursive + 1 > 2 then (true, recursive + 1)
    else if depth == 0 then (false, recursive)
    else
      var inner := GuardCounted(recursive + 1, depth - 1);
      if inner.0 then inner else (false, recursive)
  }

  /** The counted guard fails exactly when more than two calls are nested,
      and otherwise returns the counter to where it was. */
  lemma {:induction false} GuardCountedFires(recursive: int, depth: nat)
    ensures GuardCounted(recursive, depth).0 <==> recursive + depth + 1 > 2
    ensures !GuardCounted(recursive, depth).0 ==> GuardCounted(recursive, depth).1 == recursive
    decreases depth
  {
    if recursive + 1 <= 2 && depth > 0 {
      GuardCountedFires(recursive + 1, depth - 1);
    }
  }

  /** The state SCR_UpdateScreen reads and writes. */
  class Screen {
    var initialized: bool
    var recursive: int

    constructor ()
      ensures !initialized && recursive == 0
    {
      initialized := false;
      recursive := 0;
    }

    /** SCR_UpdateScreen as written; rendering is "uivm or dedicated", and
      the drawing re-enters the update depth times, one inside the other. */
    method UpdateScreen(rendering: bool, depth: nat) returns (o: Outcome<()>)
      modifies this
      ensures initialized == old(initialized)
      ensures !initialized ==> o == Done(()) && recursive == old(recursive)
      ensures initialized && !rendering ==> (o.Fatal?, recursive) == GuardAsWritten(old(recursive), 0)
      ensures initialized && rendering ==> (o.Fatal?, recursive) == GuardAsWritten(old(recursive), depth)
      decreases depth
    {
      if !initialized {
        return Done(());
      }
      recursive := recursive + 1;
      if recursive > 2 {
        return Fatal("SCR_UpdateScreen: recursively called");
      }
      recursive := 1;
      if rendering && depth > 0 {
        o := UpdateScreen(rendering, depth - 1);
        if o.Fatal? {
          return;
        }
      }
      recursive := 0;
      return Done(());
    }

    /** SCR_UpdateScreen with the counted guard. */
    method UpdateScreenCounted(rendering: bool, depth: nat) returns (o: Outcome<()>)
      modifies this
      ensures initialized == old(initialized)
      ensures !initialized ==> o == Done(()) && recursive == old(recursive)
      ensures initialized && !rendering ==> (o.Fatal?, recursive) == GuardCounted(old(recursive), 0)
      ensures initialized && rendering ==> (o.Fatal?, recursive) == GuardCounted(old(recursive), depth)
      decreases depth
    {
      if !initialized {
        return Done(());
      }
      recursive := recursive + 1;
      if recursive > 2 {
        return Fatal("SCR_UpdateScreen: recursively called");
      }
      if rendering && depth > 0 {
        o := UpdateScreenCounted(rendering, depth - 1);
        if o.Fatal? {
          return;
        }
      }
      recursive := recursive - 1;
      return Done(());
    }
  }

  // ---------------------------------------------------------------------------
  // The wide-screen test of SCR_AdjustFrom640 and SCR_DrawScreenField

  /** vidWidth * 480 > vidHeight * 640, in exact integer arithmetic. */
  predicate WiderThan4By3(vidWidth: int, vidHeight: int) {
    vidWidth * 480 > vidHeight * 640
  }

  /** The integer test is the aspect-ratio comparison against 4:3, with no
      rounding. */
  lemma WideIsAspect(vidWidth: int, vidHeight: int)
    requires vidHeight > 0
    ensures WiderThan4By3(vidWidth, vidHeight) <==> (vidWidth as real) / (vidHeight as real) > 4.0 / 3.0
    ensures vidWidth * 480 == vidHeight * 640 <==> (vidWidth as real) / (vidHeight as real) == 4.0 / 3.0
  {
    var w, h := vidWidth as real, vidHeight as real;
    assert (w / h > 4.0 / 3.0) <==> (w * 3.0 > h * 4.0);
    assert (w / h == 4.0 / 3.0) <==> (w * 3.0 == h * 4.0);
  }
}
