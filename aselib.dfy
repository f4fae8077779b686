/** The ASCII scene-export (ASE) reader: the cursor-based tokenizer over the
    loaded file, brace-depth block parsing, the face-list entries, object-name
    trimming and filtering, frame selection for a surface animation, and the
    in-place lower-casing and texture-path normalisation. */
module AseLib {
  import opened QShared

  const MAX_ASE_OBJECTS: int := 128
  const MAX_ASE_ANIMATION_FRAMES: int := 512

  // ---------------------------------------------------------------------------
  // Characters. The buffer holds bytes; `char` is signed on the targets the tool
  // is built for, so bytes 0x80..0xFF compare as negative numbers.

  ghost predicate IsByteString(s: string)
  {
    forall k :: 0 <= k < |s| ==> s[k] as int < 256
  }

  /** The value of a byte read through a signed char. */
  function SignedChar(c: char): (v: int)
    requires c as int < 256
    ensures -128 <= v < 128
    ensures v < 0 <==> c as int >= 128
  {
    if c as int >= 128 then c as int - 256 else c as int
  }

  /** CharIsTokenDelimiter, and the test of the skip loop: the value is at most 32
      (every control character, space, and every byte with the high bit set).
      A buffer holds bytes only, so no larger character occurs in it. */
  predicate IsDelimiter(c: char)
  {
    c as int < 256 && SignedChar(c) <= 32
  }

  /** The character that ends a token: a delimiter in word mode, and in either
      mode a line break. */
  predicate EndsToken(c: char, restOfLine: bool)
  {
    (IsDelimiter(c) && !restOfLine) || c == '\n' || c == '\r'
  }

  // ---------------------------------------------------------------------------
  // The tokenizer, as functions on the buffer.

  /** The first position at or after pos that is not a delimiter, or the end. */
  function SkipDelimiters(buf: string, pos: nat): (j: nat)
    requires pos <= |buf|
    ensures pos <= j <= |buf|
    ensures forall k :: pos <= k < j ==> IsDelimiter(buf[k])
    ensures j < |buf| ==> !IsDelimiter(buf[j])
    decreases |buf| - pos
  {
    if pos == |buf| || !IsDelimiter(buf[pos]) then pos else SkipDelimiters(buf, pos + 1)
  }

  /** The first position at or after pos whose character ends the token, or the end. */
  function TokenEnd(buf: string, pos: nat, restOfLine: bool): (j: nat)
    requires pos <= |buf|
    ensures pos <= j <= |buf|
    ensures forall k :: pos <= k < j ==> !EndsToken(buf[k], restOfLine)
    ensures j < |buf| ==> EndsToken(buf[j], restOfLine)
    decreases |buf| - pos
  {
    if pos == |buf| || EndsToken(buf[pos], restOfLine) then pos else TokenEnd(buf, pos + 1, restOfLine)
  }

  datatype Scanned = Scanned(pos: nat, token: string)

  /** ASE_GetToken: None when it returns 0 (no buffer, or the cursor at the end);
      otherwise the new cursor and the token. Leading delimiters are skipped, the
      token runs to the first character that ends it, and that character is
      consumed but not kept. */
  function NextToken(hasBuffer: bool, buf: string, pos: nat, restOfLine: bool): (r: Option<Scanned>)
    requires pos <= |buf|
    ensures r.None? <==> !hasBuffer || pos == |buf|
    ensures r.Some? ==> pos < r.value.pos <= |buf|
  {
    if !hasBuffer || pos == |buf| then None
    else
      var start := SkipDelimiters(buf, pos);
      var end := TokenEnd(buf, start, restOfLine);
      Some(Scanned(if end < |buf| then end + 1 else end, buf[start..end]))
  }

  /** The consumed text is delimiters, then the token, then (unless the buffer ran
      out) the one character that ended it; the token holds no such character. */
  lemma NextTokenShape(hasBuffer: bool, buf: string, pos: nat, restOfLine: bool)
    requires pos <= |buf|
    ensures var r := NextToken(hasBuffer, buf, pos, restOfLine);
      r.Some? ==> var t := r.value.token; var p := r.value.pos; var start := SkipDelimiters(buf, pos);
        && (forall k :: 0 <= k < |t| ==> !EndsToken(t[k], restOfLine))
        && start + |t| <= p
        && (forall k :: pos <= k < start ==> IsDelimiter(buf[k]))
        && buf[start..start + |t|] == t
        && (p == start + |t| == |buf| || (p == start + |t| + 1 && EndsToken(buf[start + |t|], restOfLine)))
  {
    var r := NextToken(hasBuffer, buf, pos, restOfLine);
    if r.Some? {
      var start := SkipDelimiters(buf, pos);
      var t := r.value.token;
      assert forall k :: 0 <= k < |t| ==> t[k] == buf[start + k];
    }
  }

  /** A token is empty only when nothing but delimiters was left, and then the
      cursor has reached the end. */
  lemma NextTokenEmpty(hasBuffer: bool, buf: string, pos: nat, restOfLine: bool)
    requires pos <= |buf|
    ensures var r := NextToken(hasBuffer, buf, pos, restOfLine);
      r.Some? && r.value.token == [] <==>
        hasBuffer && pos < |buf| && forall k :: pos <= k < |buf| ==> IsDelimiter(buf[k])
  {
    var r := NextToken(hasBuffer, buf, pos, restOfLine);
    if hasBuffer && pos < |buf| {
      var start := SkipDelimiters(buf, pos);
      if start < |buf| {
        assert !EndsToken(buf[start], restOfLine);
        assert r.value.token[0] == buf[start];
      }
    }
  }

  // ---------------------------------------------------------------------------
  // Brace-depth block parsing, as a function.

  function PrependTokens(ts: seq<string>, o: Outcome<(nat, seq<string>)>): Outcome<(nat, seq<string>)>
  {
    match o
    case Done(v) => Done((v.0, ts + v.1))
    case Fatal(m) => Fatal(m)
  }

  lemma PrependNothing(o: Outcome<(nat, seq<string>)>)
    ensures PrependTokens([], o) == o
  {
    if o.Done? {
      assert [] + o.value.1 == o.value.1;
    }
  }

  lemma PrependTwice(ts: seq<string>, t: string, o: Outcome<(nat, seq<string>)>)
    ensures PrependTokens(ts, PrependTokens([t], o)) == PrependTokens(ts + [t], o)
  {
    if o.Done? {
      assert ts + ([t] + o.value.1) == ts + [t] + o.value.1;
    }
  }

  lemma PrependDone(ts: seq<string>, pos: nat)
    ensures PrependTokens(ts, Done((pos, []))) == Done((pos, ts))
  {
    assert ts + [] == ts;
  }

  /** strcmp(token, "{") == 0 */
  predicate IsOpen(t: string) {
    |t| == 1 && t[0] == '{'
  }

  /** strcmp(token, "}") == 0 */
  predicate IsClose(t: string) {
    |t| == 1 && t[0] == '}'
  }

  /** ASE_ParseBracedBlock from cursor pos at depth indent: the final cursor and the
      tokens handed to the callback, or the error for an unexpected '}'. */
  function BracedBlock(hasBuffer: bool, buf: string, pos: nat, indent: int): Outcome<(nat, seq<string>)>
    requires pos <= |buf|
    decreases |buf| - pos
  {
    match NextToken(hasBuffer, buf, pos, false)
    case None => Done((pos, []))
    case Some(t) =>
      if IsOpen(t.token) then BracedBlock(hasBuffer, buf, t.pos, indent + 1)
      else if IsClose(t.token) then
        if indent - 1 == 0 then Done((t.pos, []))
        else if indent - 1 < 0 then Fatal("Unexpected '}'")
        else BracedBlock(hasBuffer, buf, t.pos, indent - 1)
      else PrependTokens([t.token], BracedBlock(hasBuffer, buf, t.pos, indent))
  }

  /** One turn of the loop in ASE_ParseBracedBlock. */
  lemma BracedBlockStep(hasBuffer: bool, buf: string, pos: nat, indent: int)
    requires pos <= |buf|
    ensures var r := NextToken(hasBuffer, buf, pos, false);
      && (r.None? ==> BracedBlock(hasBuffer, buf, pos, indent) == Done((pos, [])))
      && (r.Some? && IsOpen(r.value.token) ==>
            BracedBlock(hasBuffer, buf, pos, indent) == BracedBlock(hasBuffer, buf, r.value.pos, indent + 1))
      && (r.Some? && IsClose(r.value.token) && indent == 1 ==>
            BracedBlock(hasBuffer, buf, pos, indent) == Done((r.value.pos, [])))
      && (r.Some? && IsClose(r.value.token) && indent < 1 ==>
            BracedBlock(hasBuffer, buf, pos, indent) == Fatal("Unexpected '}'"))
      && (r.Some? && IsClose(r.value.token) && indent > 1 ==>
            BracedBlock(hasBuffer, buf, pos, indent) == BracedBlock(hasBuffer, buf, r.value.pos, indent - 1))
      && (r.Some? && !IsOpen(r.value.token) && !IsClose(r.value.token) ==>
            BracedBlock(hasBuffer, buf, pos, indent)
              == PrependTokens([r.value.token], BracedBlock(hasBuffer, buf, r.value.pos, indent)))
  {
  }

  /** The same step, stated on what ASE_GetToken hands back: whether it got a
      token, the cursor after it and the token. */
  lemma BracedBlockAfterToken(hasBuffer: bool, buf: string, pos: nat, indent: int, got: bool, next: nat, tok: string)
    requires pos <= |buf|
    requires got == NextToken(hasBuffer, buf, pos, false).Some?
    requires got ==> next == NextToken(hasBuffer, buf, pos, false).value.pos
    requires got ==> tok == NextToken(hasBuffer, buf, pos, false).value.token
    ensures got ==> pos < next <= |buf|
    ensures !got ==> BracedBlock(hasBuffer, buf, pos, indent) == Done((pos, []))
    ensures got && IsOpen(tok) ==> BracedBlock(hasBuffer, buf, pos, indent) == BracedBlock(hasBuffer, buf, next, indent + 1)
    ensures got && IsClose(tok) && indent == 1 ==> BracedBlock(hasBuffer, buf, pos, indent) == Done((next, []))
    ensures got && IsClose(tok) && indent < 1 ==> BracedBlock(hasBuffer, buf, pos, indent) == Fatal("Unexpected '}'")
    ensures got && IsClose(tok) && indent > 1 ==>
      BracedBlock(hasBuffer, buf, pos, indent) == BracedBlock(hasBuffer, buf, next, indent - 1)
    ensures got && !IsOpen(tok) && !IsClose(tok) ==>
      BracedBlock(hasBuffer, buf, pos, indent) == PrependTokens([tok], BracedBlock(hasBuffer, buf, next, indent))
  {
    BracedBlockStep(hasBuffer, buf, pos, indent);
  }

  /** Once inside a block, the depth can only return to 0, never go below it. */
  lemma {:induction false} BracedBlockInsideNeverFails(hasBuffer: bool, buf: string, pos: nat, indent: int)
    requires pos <= |buf| && indent >= 1
    ensures BracedBlock(hasBuffer, buf, pos, indent).Done?
    decreases |buf| - pos
  {
    match NextToken(hasBuffer, buf, pos, false)
    case None =>
    case Some(t) =>
      if IsOpen(t.token) {
        BracedBlockInsideNeverFails(hasBuffer, buf, t.pos, indent + 1);
      } else if IsClose(t.token) {
        if indent - 1 != 0 {
          BracedBlockInsideNeverFails(hasBuffer, buf, t.pos, indent - 1);
        }
      } else {
        BracedBlockInsideNeverFails(hasBuffer, buf, t.pos, indent);
      }
  }

  /** A token the callback may be given: not a brace, and no delimiter inside. */
  predicate IsWord(t: string)
  {
    !IsOpen(t) && !IsClose(t) && forall k :: 0 <= k < |t| ==> !IsDelimiter(t[k])
  }

  /** A token read in word mode holds no delimiter. */
  lemma WordTokenUndelimited(hasBuffer: bool, buf: string, pos: nat)
    requires pos <= |buf|
    ensures var r := NextToken(hasBuffer, buf, pos, false);
      r.Some? ==> forall k :: 0 <= k < |r.value.token| ==> !IsDelimiter(r.value.token[k])
  {
    NextTokenShape(hasBuffer, buf, pos, false);
  }

  lemma PrependWord(t: string, ts: seq<string>)
    requires IsWord(t) && forall i :: 0 <= i < |ts| ==> IsWord(ts[i])
    ensures forall i :: 0 <= i < |[t] + ts| ==> IsWord(([t] + ts)[i])
  {
    var all := [t] + ts;
    assert forall i :: 1 <= i < |all| ==> all[i] == ts[i - 1];
  }

  /** The callback never sees a brace, and every token it sees is a word: no
      delimiter inside. */
  lemma {:induction false} BracedBlockTokens(hasBuffer: bool, buf: string, pos: nat, indent: int)
    requires pos <= |buf|
    ensures var r := BracedBlock(hasBuffer, buf, pos, indent);
      r.Done? ==> pos <= r.value.0 <= |buf| && forall i :: 0 <= i < |r.value.1| ==> IsWord(r.value.1[i])
    decreases |buf| - pos
  {
    var r := NextToken(hasBuffer, buf, pos, false);
    BracedBlockStep(hasBuffer, buf, pos, indent);
    if r.Some? {
      var t := r.value;
      if IsOpen(t.token) {
        BracedBlockTokens(hasBuffer, buf, t.pos, indent + 1);
      } else if IsClose(t.token) {
        if indent > 1 {
          BracedBlockTokens(hasBuffer, buf, t.pos, indent - 1);
        }
      } else {
        WordTokenUndelimited(hasBuffer, buf, pos);
        BracedBlockTokens(hasBuffer, buf, t.pos, indent);
        var rest := BracedBlock(hasBuffer, buf, t.pos, indent);
        if rest.Done? {
          PrependWord(t.token, rest.value.1);
        }
      }
    }
  }

  // ---------------------------------------------------------------------------
  // The reader's state: the loaded buffer, the cursor and the last token.

  class AseReader {
    var buffer: string
    var hasBuffer: bool
    var curpos: nat
    var token: string

    /** The cursor never passes the end of the buffer. */
    ghost predicate Valid()
      reads this
    {
      curpos <= |buffer| && IsByteString(buffer)
    }

    constructor (contents: string)
      requires IsByteString(contents)
      ensures Valid() && buffer == contents && hasBuffer && curpos == 0 && token == []
    {
      buffer := contents;
      hasBuffer := true;
      curpos := 0;
      token := [];
    }

    /** ASE_GetToken */
    method GetToken(restOfLine: bool) returns (got: bool)
      requires Valid()
      modifies this`curpos, this`token
      ensures Valid()
      ensures match NextToken(hasBuffer, buffer, old(curpos), restOfLine)
        case None => !got && curpos == old(curpos) && token == old(token)
        case Some(t) => got && curpos == t.pos && token == t.token
    {
      if !hasBuffer || curpos == |buffer| {
        return false;
      }
      ghost var start := SkipDelimiters(buffer, curpos);
      while curpos < |buffer| && IsDelimiter(buffer[curpos])
        invariant old(curpos) <= curpos <= start
        invariant SkipDelimiters(buffer, curpos) == start
      {
        curpos := curpos + 1;
      }
      ghost var end := TokenEnd(buffer, start, restOfLine);
      var t := [];
      while curpos < |buffer|
        invariant start <= curpos <= end
        invariant t == buffer[start..curpos]
      {
        var c := buffer[curpos];
        curpos := curpos + 1;
        if EndsToken(c, restOfLine) {
          break;
        }
        t := t + [c];
      }
      token := t;
      return true;
    }

    /** ASE_KeyMESH_FACE_LIST, ASE_KeyTFACE_LIST and ASE_KeyCFACE_LIST, called
        on the token the block parser has just read into s_token. Each first
        looks up the current mesh (ASE_GetCurrentMesh); mesh stands for
        frame currentFrame of object currentObject. */
    method KeyFaceList(l: FaceList, currentObject: nat, currentFrame: nat, mesh: AseMesh) returns (r: Outcome<()>)
      requires Valid()
      modifies this`curpos, this`token, mesh
      ensures Valid()
      ensures CurrentMesh(currentObject, currentFrame).Fatal? ==>
        r == Fatal(CurrentMesh(currentObject, currentFrame).message)
        && curpos == old(curpos) && token == old(token) && unchanged(mesh)
      ensures var rd := Reads(hasBuffer, buffer, old(curpos), EntryReads(l), old(token));
        var e := FaceListEntry(l, old(token), rd.1);
        CurrentMesh(currentObject, currentFrame).Done? && e.Fatal? ==>
          r == Fatal(e.message) && curpos == old(curpos) && token == old(token) && unchanged(mesh)
      ensures var rd := Reads(hasBuffer, buffer, old(curpos), EntryReads(l), old(token));
        var e := FaceListEntry(l, old(token), rd.1);
        CurrentMesh(currentObject, currentFrame).Done? && e.Done? ==>
          && r == Done(())
          && curpos == rd.0
          && token == rd.1[|rd.1| - 1]
          && mesh.currentFace == old(mesh.currentFace) + 1
          && mesh.Slots(l) == old(mesh.Slots(l))[old(mesh.currentFace) := e.value]
          && forall other :: other != l ==> mesh.Slots(other) == old(mesh.Slots(other))
    {
      var at := CurrentMesh(currentObject, currentFrame);
      if at.Fatal? {
        return Fatal(at.message);
      }
      r := FaceEntry(l, mesh);
    }

    /** The part of those handlers after the mesh lookup: the keyword check,
        the entry's reads and the store into the mesh. */
    method FaceEntry(l: FaceList, mesh: AseMesh) returns (r: Outcome<()>)
      requires Valid()
      modifies this`curpos, this`token, mesh
      ensures Valid()
      ensures var rd := Reads(hasBuffer, buffer, old(curpos), EntryReads(l), old(token));
        var e := FaceListEntry(l, old(token), rd.1);
        e.Fatal? ==> r == Fatal(e.message) && curpos == old(curpos) && token == old(token) && unchanged(mesh)
      ensures var rd := Reads(hasBuffer, buffer, old(curpos), EntryReads(l), old(token));
        var e := FaceListEntry(l, old(token), rd.1);
        e.Done? ==>
          && r == Done(())
          && curpos == rd.0
          && token == rd.1[|rd.1| - 1]
          && mesh.currentFace == old(mesh.currentFace) + 1
          && mesh.Slots(l) == old(mesh.Slots(l))[old(mesh.currentFace) := e.value]
          && forall other :: other != l ==> mesh.Slots(other) == old(mesh.Slots(other))
    {
      if token != EntryKeyword(l) {
        return Fatal(EntryError(l, token));
      }
      ghost var keyword := token;
      var toks := ReadAll(EntryReads(l));
      var n := VertexReads(l);
      var face := Face(Atoi(toks[n.0]), Atoi(toks[n.2]), Atoi(toks[n.1]));
      assert FaceListEntry(l, keyword, toks) == Done(face);
      mesh.Store(l, face);
      return Done(());
    }

    /** ASE_GetToken once per flag: s_token after each call. */
    method ReadAll(modes: seq<bool>) returns (toks: seq<string>)
      requires Valid()
      modifies this`curpos, this`token
      ensures Valid()
      ensures Reads(hasBuffer, buffer, old(curpos), modes, old(token)) == (curpos, toks)
      ensures toks != [] ==> token == toks[|toks| - 1]
    {
      ghost var start, first := curpos, token;
      toks := [];
      var i := 0;
      assert modes[i..] == modes && toks + Reads(hasBuffer, buffer, curpos, modes, token).1 == Reads(hasBuffer, buffer, curpos, modes, token).1;
      while i < |modes|
        invariant Valid() && i <= |modes| && |toks| == i
        invariant i > 0 ==> token == toks[i - 1]
        invariant var rest := Reads(hasBuffer, buffer, curpos, modes[i..], token);
          Reads(hasBuffer, buffer, start, modes, first) == (rest.0, toks + rest.1)
      {
        ghost var before, was := curpos, token;
        var got := GetToken(modes[i]);
        ReadsStep(hasBuffer, buffer, before, modes[i..], was);
        assert modes[i..][1..] == modes[i + 1..];
        ConcatAssoc(toks, [token], Reads(hasBuffer, buffer, curpos, modes[i + 1..], token).1);
        toks := toks + [token];
        i := i + 1;
      }
      assert modes[i..] == [] && toks + [] == toks;
    }

    /** ASE_ParseBracedBlock, with a callback that records each token it is given. */
    method ParseBracedBlock() returns (r: Outcome<seq<string>>)
      requires Valid()
      modifies this`curpos, this`token
      ensures Valid()
      ensures match BracedBlock(hasBuffer, buffer, old(curpos), 0)
        case Done(v) => r == Done(v.1) && curpos == v.0
        case Fatal(m) => r == Fatal(m)
    {
      var indent := 0;
      var seen: seq<string> := [];
      ghost var whole := BracedBlock(hasBuffer, buffer, curpos, 0);
      PrependNothing(whole);
      while true
        invariant Valid() && indent >= 0
        invariant whole == PrependTokens(seen, BracedBlock(hasBuffer, buffer, curpos, indent))
        decreases |buffer| - curpos
      {
        ghost var before := curpos;
        var got := GetToken(false);
        BracedBlockAfterToken(hasBuffer, buffer, before, indent, got, curpos, token);
        if !got {
          PrependDone(seen, curpos);
          return Done(seen);
        }
        if IsOpen(token) {
          indent := indent + 1;
        } else if IsClose(token) {
          indent := indent - 1;
          if indent == 0 {
            PrependDone(seen, curpos);
            return Done(seen);
          } else if indent < 0 {
            return Fatal("Unexpected '}'");
          }
        } else {
          PrependTwice(seen, token, BracedBlock(hasBuffer, buffer, curpos, indent));
          seen := seen + [token];
        }
      }
    }
  }

  // ---------------------------------------------------------------------------
  // Face lists.

  /** atoi: optional sign, then the longest run of decimal digits. */
  function Atoi(s: string): int
  {
    if s != [] && s[0] == '-' then -(Digits(s[1..], 0) as int)
    else if s != [] && s[0] == '+' then Digits(s[1..], 0)
    else Digits(s, 0)
  }

  function Digits(s: string, acc: nat): nat
  {
    if s == [] || !('0' <= s[0] <= '9') then acc
    else Digits(s[1..], acc * 10 + (s[0] as int - '0' as int))
  }

  datatype Face = Face(v0: int, v1: int, v2: int)

  /** The three face lists of a mesh: *MESH_FACE_LIST, *MESH_TFACELIST and
      *MESH_CFACELIST. */
  datatype FaceList = Faces | TFaces | CFaces

  /** The keyword every entry of the list starts with. */
  function EntryKeyword(l: FaceList): string {
    match l
    case Faces => "*MESH_FACE"
    case TFaces => "*MESH_TFACE"
    case CFaces => "*MESH_CFACE"
  }

  /** The Error() text for an entry that starts with another token. */
  function EntryError(l: FaceList, token: string): string {
    match l
    case Faces => "Unknown token '" + token + "' while parsing MESH_FACE_LIST"
    case TFaces => "Unknown token '" + token + "' in MESH_TFACE"
    case CFaces => "Unknown token '" + token + "' in MESH_CFACE"
  }

  /** The ASE_GetToken calls an entry makes after its keyword, by their
      restOfLine flag. A *MESH_FACE reads its number, three label and vertex
      pairs, then the rest of the line; the other two read the number and the
      three vertices. */
  function EntryReads(l: FaceList): (r: seq<bool>)
    ensures |r| == if l.Faces? then 8 else 4
    ensures forall k :: 0 <= k < |r| - 1 ==> !r[k]
  {
    if l.Faces? then [false, false, false, false, false, false, false, true]
    else [false, false, false, false]
  }

  /** Which of those reads hold the three vertex indices, in file order. */
  function VertexReads(l: FaceList): (r: (nat, nat, nat))
    ensures r.0 < r.1 < r.2 < |EntryReads(l)|
  {
    if l.Faces? then (2, 4, 6) else (1, 2, 3)
  }

  /** Successive ASE_GetToken calls with the given flags from pos: the cursor
      after them and s_token after each. A call that gets nothing leaves the
      cursor and s_token as they were. */
  function Reads(hasBuffer: bool, buf: string, pos: nat, modes: seq<bool>, last: string): (r: (nat, seq<string>))
    requires pos <= |buf|
    ensures pos <= r.0 <= |buf| && |r.1| == |modes|
    decreases |modes|
  {
    if modes == [] then (pos, [])
    else
      var next := NextToken(hasBuffer, buf, pos, modes[0]);
      var p := if next.Some? then next.value.pos else pos;
      var t := if next.Some? then next.value.token else last;
      var rest := Reads(hasBuffer, buf, p, modes[1..], t);
      (rest.0, [t] + rest.1)
  }

  /** Once the buffer is used up every further read leaves s_token alone, so
      a truncated entry takes its missing indices from the last token read. */
  lemma {:induction false} ReadsExhausted(hasBuffer: bool, buf: string, pos: nat, modes: seq<bool>, last: string)
    requires pos <= |buf| && (!hasBuffer || pos == |buf|)
    ensures Reads(hasBuffer, buf, pos, modes, last).0 == pos
    ensures forall k :: 0 <= k < |modes| ==> Reads(hasBuffer, buf, pos, modes, last).1[k] == last
    decreases |modes|
  {
    if modes != [] {
      ReadsExhausted(hasBuffer, buf, pos, modes[1..], last);
    }
  }

  /** The first of several reads, then the others from where it left off. */
  lemma ReadsStep(hasBuffer: bool, buf: string, pos: nat, modes: seq<bool>, last: string)
    requires pos <= |buf| && modes != []
    ensures var next := NextToken(hasBuffer, buf, pos, modes[0]);
      var p := if next.Some? then next.value.pos else pos;
      var t := if next.Some? then next.value.token else last;
      var rest := Reads(hasBuffer, buf, p, modes[1..], t);
      Reads(hasBuffer, buf, pos, modes, last) == (rest.0, [t] + rest.1)
  {
  }

  /** One entry of a face list, on the token that starts it and the tokens
      its reads hand back: the token must be the list's keyword, and the three
      vertex indices, in file order, are stored in slots 0, 2 and 1. */
  function FaceListEntry(l: FaceList, token: string, toks: seq<string>): (r: Outcome<Face>)
    requires |toks| == |EntryReads(l)|
    ensures token != EntryKeyword(l) <==> r.Fatal?
    ensures r.Fatal? ==> r.message == EntryError(l, token)
    ensures r.Done? ==> var n := VertexReads(l);
      var v := [Atoi(toks[n.0]), Atoi(toks[n.1]), Atoi(toks[n.2])];
      var f := [r.value.v0, r.value.v1, r.value.v2];
      forall k :: 0 <= k < 3 ==> f[k] == v[(3 - k) % 3]
  {
    var n := VertexReads(l);
    if token != EntryKeyword(l) then Fatal(EntryError(l, token))
    else Done(Face(Atoi(toks[n.0]), Atoi(toks[n.2]), Atoi(toks[n.1])))
  }

  /** ASE_GetCurrentMesh: the object and frame indices of the mesh being read,
      or the error for an index that has run past its array. */
  function CurrentMesh(currentObject: nat, currentFrame: nat): (r: Outcome<(nat, nat)>)
    ensures currentObject >= MAX_ASE_OBJECTS <==> r == Fatal("Too many GEOMOBJECTs")
    ensures currentObject < MAX_ASE_OBJECTS && currentFrame >= MAX_ASE_ANIMATION_FRAMES <==> r == Fatal("Too many MESHes")
    ensures r.Done? <==> currentObject < MAX_ASE_OBJECTS && currentFrame < MAX_ASE_ANIMATION_FRAMES
    ensures r.Done? ==> r.value == (currentObject, currentFrame)
  {
    if currentObject >= MAX_ASE_OBJECTS then Fatal("Too many GEOMOBJECTs")
    else if currentFrame >= MAX_ASE_ANIMATION_FRAMES then Fatal("Too many MESHes")
    else Done((currentObject, currentFrame))
  }

  /** The face slots of the mesh being read. Each entry writes slot
      currentFace of its list and moves currentFace on; nothing compares
      currentFace with MESH_NUMFACES, so the slots are a map rather than the
      array of that size. */
  class AseMesh {
    var faces: map<int, Face>
    var tfaces: map<int, Face>
    var cfaces: map<int, Face>
    var currentFace: int

    constructor ()
      ensures faces == map[] && tfaces == map[] && cfaces == map[] && currentFace == 0
    {
      faces, tfaces, cfaces := map[], map[], map[];
      currentFace := 0;
    }

    function Slots(l: FaceList): map<int, Face>
      reads this
    {
      match l
      case Faces => faces
      case TFaces => tfaces
      case CFaces => cfaces
    }

    /** Writes slot currentFace of the list and moves currentFace on. */
    method Store(l: FaceList, face: Face)
      modifies this
      ensures currentFace == old(currentFace) + 1
      ensures Slots(l) == old(Slots(l))[old(currentFace) := face]
      ensures forall other :: other != l ==> Slots(other) == old(Slots(other))
    {
      match l {
        case Faces => faces := faces[currentFace := face];
        case TFaces => tfaces := tfaces[currentFace := face];
        case CFaces => cfaces := cfaces[currentFace := face];
      }
      currentFace := currentFace + 1;
    }
  }

  // ---------------------------------------------------------------------------
  // *NODE_NAME trimming for tags.

  function Count(s: string, c: char): nat
  {
    if s == [] then 0 else Count(s[..|s| - 1], c) + (if s[|s| - 1] == c then 1 else 0)
  }

  lemma {:induction false} CountPrefix(s: string, c: char, k: nat)
    requires k <= |s|
    ensures Count(s[..k], c) <= Count(s, c)
    decreases |s|
  {
    if k < |s| {
      assert s[..|s| - 1][..k] == s[..k];
      CountPrefix(s[..|s| - 1], c, k);
    } else {
      assert s[..k] == s;
    }
  }

  /** Count over a prefix that stops just past an occurrence. */
  lemma {:induction false} CountStep(s: string, c: char, k: nat)
    requires k < |s|
    ensures Count(s[..k + 1], c) == Count(s[..k], c) + (if s[k] == c then 1 else 0)
  {
    assert s[..k + 1][..k] == s[..k];
  }

  lemma {:induction false} CountZero(s: string, c: char)
    ensures Count(s, c) == 0 <==> c !in s
    decreases |s|
  {
    if s != [] {
      CountZero(s[..|s| - 1], c);
      assert s == s[..|s| - 1] + [s[|s| - 1]];
    }
  }

  /** strrchr: the index of the last occurrence. */
  function LastIndex(s: string, c: char): (i: nat)
    requires c in s
    ensures i < |s| && s[i] == c && c !in s[i + 1..]
    ensures Count(s[..i], c) == Count(s, c) - 1
  {
    if s[|s| - 1] == c then |s| - 1
    else
      assert s[..|s| - 1][..LastIndex(s[..|s| - 1], c)] == s[..LastIndex(s[..|s| - 1], c)];
      LastIndex(s[..|s| - 1], c)
  }

  /** At most one '_' and no space. */
  ghost predicate TagTrimmed(t: string)
  {
    Count(t, '_') <= 1 && ' ' !in t
  }

  /** Every prefix of the name that reaches past the last '_' of a prefix r
      holding two or more still holds two or more. */
  lemma UnderscoreCutKeeps(name: string, r: string, i: nat)
    requires |r| <= |name| && r == name[..|r|]
    requires i < |r| && r[i] == '_' && Count(r, '_') >= 2 && Count(r[..i], '_') == Count(r, '_') - 1
    ensures forall k :: i < k <= |r| ==> Count(name[..k], '_') >= 2
  {
    forall k | i < k <= |r|
      ensures Count(name[..k], '_') >= 2
    {
      assert name[..i] == r[..i] && name[..i + 1] == r[..i + 1];
      CountStep(name, '_', i);
      CountPrefix(name[..k], '_', i + 1);
      assert name[..k][..i + 1] == name[..i + 1];
    }
  }

  /** Every prefix of the name that reaches past a space holds that space. */
  lemma SpaceCutKeeps(name: string, r: string, i: nat)
    requires |r| <= |name| && r == name[..|r|]
    requires i < |r| && r[i] == ' '
    ensures forall k :: i < k <= |r| ==> !TagTrimmed(name[..k])
  {
    forall k | i < k <= |r|
      ensures !TagTrimmed(name[..k])
    {
      assert name[..k][i] == ' ';
    }
  }

  /** The tag-name trimming in ASE_KeyGEOMOBJECT: for a name that starts with "tag",
      cut at the last '_' while it differs from the first, then at the last ' '
      while there is one. The result is the longest prefix of the name that has at
      most one '_' and no space. */
  method TrimTagName(name: string) returns (r: string)
    ensures !StartsWith(name, "tag") ==> r == name
    ensures StartsWith(name, "tag") ==>
      && StartsWith(name, r)
      && TagTrimmed(r)
      && forall k :: |r| < k <= |name| ==> !TagTrimmed(name[..k])
  {
    r := name;
    if !StartsWith(name, "tag") {
      return;
    }
    while Count(r, '_') >= 2
      invariant |r| <= |name| && r == name[..|r|]
      invariant forall k :: |r| < k <= |name| ==> Count(name[..k], '_') >= 2
      decreases |r|
    {
      CountZero(r, '_');
      var i := LastIndex(r, '_');
      UnderscoreCutKeeps(name, r, i);
      r := r[..i];
    }
    while ' ' in r
      invariant |r| <= |name| && r == name[..|r|]
      invariant Count(r, '_') <= 1
      invariant forall k :: |r| < k <= |name| ==> !TagTrimmed(name[..k])
      decreases |r|
    {
      var i := LastIndex(r, ' ');
      SpaceCutKeeps(name, r, i);
      CountPrefix(r, '_', i);
      r := r[..i];
    }
  }

  /** The object name taken from a *NODE_NAME line: the token after its first
      character (the opening quote), up to the first NUL, cut at the first '"'. */
  function QuotedName(token: string): (r: string)
    ensures '"' !in r && '\0' !in r
    ensures StartsWith(CString(if token == [] then [] else token[1..]), r)
  {
    CutAt(CString(if token == [] then [] else token[1..]), '"')
  }

  /** *strchr(s, c) = 0 */
  function CutAt(s: string, c: char): (r: string)
    ensures StartsWith(s, r) && c !in r
    ensures |r| < |s| ==> s[|r|] == c
  {
    if s == [] || s[0] == c then [] else [s[0]] + CutAt(s[1..], c)
  }

  // ---------------------------------------------------------------------------
  // *BITMAP path normalisation.

  /** The *BITMAP handler: the token after its opening quote, cut at the closing
      quote, with every '\\' turned into '/'. */
  method BitmapPath(token: string) returns (path: string)
    ensures var s := CutAt(CString(if token == [] then [] else token[1..]), '"');
      && |path| == |s|
      && forall k :: 0 <= k < |s| ==> path[k] == (if s[k] == '\\' then '/' else s[k])
  {
    path := CutAt(CString(if token == [] then [] else token[1..]), '"');
    ghost var s := path;
    var i := 0;
    while i < |path|
      invariant 0 <= i <= |path| == |s|
      invariant forall k :: 0 <= k < i ==> path[k] == (if s[k] == '\\' then '/' else s[k])
      invariant path[i..] == s[i..]
    {
      if path[i] == '\\' {
        path := path[i := '/'];
      }
      i := i + 1;
    }
  }

  /** After normalisation no backslash is left, and nothing else changed. */
  lemma BitmapPathSeparators(path: string, s: string)
    requires |path| == |s| && forall k :: 0 <= k < |s| ==> path[k] == (if s[k] == '\\' then '/' else s[k])
    ensures '\\' !in path
    ensures forall k :: 0 <= k < |s| && s[k] != '\\' ==> path[k] == s[k]
  {
  }

  // ---------------------------------------------------------------------------
  // strlwr

  /** strlwr: lower-cases 'A'..'Z' in place up to the first NUL. */
  method Strlwr(a: array<char>)
    modifies a
    ensures var n := |CString(old(a[..]))|;
      a[..n] == Lower(old(a[..n])) && a[n..] == old(a[n..])
  {
    ghost var orig := a[..];
    ghost var n := |CString(orig)|;
    var i := 0;
    while i < a.Length && a[i] != '\0'
      invariant 0 <= i <= n
      invariant a[..i] == Lower(orig[..i])
      invariant forall k :: i <= k < a.Length ==> a[k] == orig[k]
    {
      var c := a[i];
      a[i] := LowerChar(c);
      assert a[..i + 1] == a[..i] + [a[i]];
      assert orig[..i + 1] == orig[..i] + [c];
      LowerAppend(orig[..i], c);
      i := i + 1;
    }
    assert a[n..] == orig[n..];
  }

  lemma LowerAppend(s: string, c: char)
    ensures Lower(s + [c]) == Lower(s) + [LowerChar(c)]
  {
  }

  /** Lower-casing twice is lower-casing once, and only 'A'..'Z' change. */
  lemma LowerIdempotent(s: string)
    ensures Lower(Lower(s)) == Lower(s)
    ensures forall k :: 0 <= k < |s| && !('A' <= s[k] <= 'Z') ==> Lower(s)[k] == s[k]
  {
  }

  // ---------------------------------------------------------------------------
  // ASE_GetSurfaceAnimation frame selection.

  /** The frame is skipped: a skip range is given (skipFrameStart != -1) and the
      frame lies in it. */
  predicate Skipped(i: int, skipFrameStart: int, skipFrameEnd: int)
  {
    skipFrameStart != -1 && skipFrameStart <= i <= skipFrameEnd
  }

  /** The frames the copy loop keeps, in order, out of the first n. */
  function KeptFrames<T>(frames: seq<T>, n: nat, skipFrameStart: int, skipFrameEnd: int): (r: seq<T>)
    requires n <= |frames|
    ensures |r| <= n
  {
    if n == 0 then []
    else
      var prev := KeptFrames(frames, n - 1, skipFrameStart, skipFrameEnd);
      prev + (if Skipped(n - 1, skipFrameStart, skipFrameEnd) then [] else [frames[n - 1]])
  }

  /** The number of frames in the animation after the maxFrames clamp. */
  function FramesInAnimation(numFrames: nat, maxFrames: int): (n: int)
    ensures n <= numFrames
    ensures n == numFrames || (maxFrames != -1 && n == maxFrames)
    ensures maxFrames != -1 ==> n <= maxFrames
  {
    if numFrames > maxFrames && maxFrames != -1 then maxFrames else numFrames
  }

  function Clamp0(n: int): nat { if n < 0 then 0 else n }

  /** The frame count ASE_GetSurfaceAnimation reports, as written: the size of the
      skip range is subtracted whenever skipFrameEnd != -1. */
  function ReportedCount(n: int, skipFrameStart: int, skipFrameEnd: int): int
  {
    if skipFrameEnd != -1 then n - (skipFrameEnd - skipFrameStart + 1) else n
  }

  /** ASE_GetSurfaceAnimation: nothing for an object without frames; otherwise the
      reported count and the frames copied, in order, leaving out the skip range. */
  method GetSurfaceAnimation<T>(frames: seq<T>, maxFrames: int, skipFrameStart: int, skipFrameEnd: int)
    returns (r: Option<(int, seq<T>)>)
    ensures frames == [] <==> r.None?
    ensures r.Some? ==> var n := FramesInAnimation(|frames|, maxFrames);
      && r.value.0 == ReportedCount(n, skipFrameStart, skipFrameEnd)
      && r.value.1 == KeptFrames(frames, Clamp0(n), skipFrameStart, skipFrameEnd)
  {
    if |frames| == 0 {
      return None;
    }
    var n: int;
    if |frames| > maxFrames && maxFrames != -1 {
      n := maxFrames;
    } else {
      n := |frames|;
    }
    var count := if skipFrameEnd != -1 then n - (skipFrameEnd - skipFrameStart + 1) else n;
    var psets: seq<T> := [];
    var i := 0;
    while i < n
      invariant 0 <= i <= Clamp0(n)
      invariant psets == KeptFrames(frames, i, skipFrameStart, skipFrameEnd)
    {
      if skipFrameStart != -1 && i >= skipFrameStart && i <= skipFrameEnd {
        i := i + 1;
        continue;
      }
      psets := psets + [frames[i]];
      i := i + 1;
    }
    return Some((count, psets));
  }

  /** The number of skipped frames among 0..n-1. */
  function SkippedBelow(n: nat, skipFrameStart: int, skipFrameEnd: int): (r: nat)
    ensures r <= n
  {
    if n == 0 then 0
    else SkippedBelow(n - 1, skipFrameStart, skipFrameEnd) + (if Skipped(n - 1, skipFrameStart, skipFrameEnd) then 1 else 0)
  }

  /** Exactly the frames outside the skip range are copied. */
  lemma {:induction false} KeptFramesLength<T>(frames: seq<T>, n: nat, skipFrameStart: int, skipFrameEnd: int)
    requires n <= |frames|
    ensures |KeptFrames(frames, n, skipFrameStart, skipFrameEnd)| == n - SkippedBelow(n, skipFrameStart, skipFrameEnd)
  {
    if n > 0 {
      KeptFramesLength(frames, n - 1, skipFrameStart, skipFrameEnd);
    }
  }

  /** A frame outside the skip range is copied, after exactly the kept frames that
      precede it: kept frames keep their order. */
  lemma {:induction false} KeptFramesAt<T>(frames: seq<T>, n: nat, skipFrameStart: int, skipFrameEnd: int, i: nat)
    requires n <= |frames| && i < n && !Skipped(i, skipFrameStart, skipFrameEnd)
    ensures var kept := KeptFrames(frames, n, skipFrameStart, skipFrameEnd);
      i - SkippedBelow(i, skipFrameStart, skipFrameEnd) < |kept|
      && kept[i - SkippedBelow(i, skipFrameStart, skipFrameEnd)] == frames[i]
  {
    KeptFramesLength(frames, n - 1, skipFrameStart, skipFrameEnd);
    if i < n - 1 {
      KeptFramesAt(frames, n - 1, skipFrameStart, skipFrameEnd, i);
    } else {
      KeptFramesLength(frames, i, skipFrameStart, skipFrameEnd);
    }
  }

  /** As written, the reported count can disagree with the number of frames
      copied: with no skip start but a skip end, nothing is skipped and yet the
      count is reduced, so the copy loop writes past the array of that size. */
  lemma ReportedCountMismatch()
    ensures var frames := [0, 1, 2, 3];
      ReportedCount(4, -1, 1) == 1 && |KeptFrames(frames, 4, -1, 1)| == 4
  {
    var frames := [0, 1, 2, 3];
    assert KeptFrames(frames, 0, -1, 1) == [];
    assert KeptFrames(frames, 1, -1, 1) == [0];
    assert KeptFrames(frames, 2, -1, 1) == [0, 1];
    assert KeptFrames(frames, 3, -1, 1) == [0, 1, 2];
  }

  /** The count the allocation evidently intends: the number of frames the loop
      keeps. */
  function KeptCount(n: nat, skipFrameStart: int, skipFrameEnd: int): nat
  {
    n - SkippedBelow(n, skipFrameStart, skipFrameEnd)
  }

  /** The corrected count always sizes the copy exactly, and agrees with the
      count as written whenever a skip range inside the animation is given. */
  lemma KeptCountExact<T>(frames: seq<T>, n: nat, skipFrameStart: int, skipFrameEnd: int)
    requires n <= |frames|
    ensures |KeptFrames(frames, n, skipFrameStart, skipFrameEnd)| == KeptCount(n, skipFrameStart, skipFrameEnd)
    ensures 0 <= skipFrameStart <= skipFrameEnd < n ==>
      KeptCount(n, skipFrameStart, skipFrameEnd) == ReportedCount(n, skipFrameStart, skipFrameEnd)
  {
    KeptFramesLength(frames, n, skipFrameStart, skipFrameEnd);
    if 0 <= skipFrameStart <= skipFrameEnd < n {
      SkippedBelowRange(n, skipFrameStart, skipFrameEnd);
    }
  }

  lemma {:induction false} SkippedBelowRange(n: nat, skipFrameStart: int, skipFrameEnd: int)
    requires 0 <= skipFrameStart <= skipFrameEnd
    ensures SkippedBelow(n, skipFrameStart, skipFrameEnd) ==
      if n <= skipFrameStart then 0
      else if n <= skipFrameEnd then n - skipFrameStart
      else skipFrameEnd - skipFrameStart + 1
  {
    if n > 0 {
      SkippedBelowRange(n - 1, skipFrameStart, skipFrameEnd);
    }
  }

  /** GetSurfaceAnimation with the corrected count. */
  method GetSurfaceAnimationCorrected<T>(frames: seq<T>, maxFrames: int, skipFrameStart: int, skipFrameEnd: int)
    returns (r: Option<(int, seq<T>)>)
    ensures frames == [] <==> r.None?
    ensures r.Some? ==> var n := FramesInAnimation(|frames|, maxFrames);
      && r.value.1 == KeptFrames(frames, Clamp0(n), skipFrameStart, skipFrameEnd)
      && r.value.0 == |r.value.1|
  {
    r := GetSurfaceAnimation(frames, maxFrames, skipFrameStart, skipFrameEnd);
    if r.Some? {
      var n := FramesInAnimation(|frames|, maxFrames);
      KeptCountExact(frames, Clamp0(n), skipFrameStart, skipFrameEnd);
      r := Some((|r.value.1|, r.value.1));
    }
  }

  // ---------------------------------------------------------------------------
  // ASE_Process object filtering.

  /** The object is thrown away: biped bones and objects named to be ignored, and,
      when grabbing animations, anything not labelled h_, l_, u_ or tag. */
  predicate Discarded(name: string, grabAnims: bool)
  {
    || Contains(name, "Bip") || Contains(name, "ignore_")
    || (grabAnims && !StartsWith(name, "h_") && !StartsWith(name, "l_")
        && !StartsWith(name, "u_") && !StartsWith(name, "tag"))
  }

  function KeptObjects(names: seq<string>, grabAnims: bool): (r: seq<string>)
    ensures |r| <= |names|
    ensures forall k :: 0 <= k < |r| ==> r[k] in names && !Discarded(r[k], grabAnims)
  {
    if names == [] then []
    else
      var prev := KeptObjects(names[..|names| - 1], grabAnims);
      prev + (if Discarded(names[|names| - 1], grabAnims) then [] else [names[|names| - 1]])
  }

  /** ASE_Process over the names of the *GEOMOBJECTs in file order: the kept
      objects, the error when the 128th is kept, or when none is. */
  method Process(names: seq<string>, grabAnims: bool) returns (r: Outcome<seq<string>>)
    ensures |KeptObjects(names, grabAnims)| >= MAX_ASE_OBJECTS <==> r == Fatal("Too many GEOMOBJECTs")
    ensures KeptObjects(names, grabAnims) == [] <==> r == Fatal("No animation data!")
    ensures 0 < |KeptObjects(names, grabAnims)| < MAX_ASE_OBJECTS <==> r == Done(KeptObjects(names, grabAnims))
  {
    var objects: seq<string> := [];
    var i := 0;
    while i < |names|
      invariant 0 <= i <= |names|
      invariant objects == KeptObjects(names[..i], grabAnims)
      invariant |objects| < MAX_ASE_OBJECTS
    {
      KeptObjectsStep(names, grabAnims, i);
      if !Discarded(names[i], grabAnims) {
        objects := objects + [names[i]];
        if |objects| == MAX_ASE_OBJECTS {
          KeptObjectsPrefix(names, grabAnims, i + 1);
          return Fatal("Too many GEOMOBJECTs");
        }
      }
      i := i + 1;
    }
    assert names[..i] == names;
    if |objects| == 0 {
      return Fatal("No animation data!");
    }
    return Done(objects);
  }

  /** One more name adds itself to the kept objects unless it is discarded. */
  lemma KeptObjectsStep(names: seq<string>, grabAnims: bool, i: nat)
    requires i < |names|
    ensures KeptObjects(names[..i + 1], grabAnims)
      == KeptObjects(names[..i], grabAnims) + (if Discarded(names[i], grabAnims) then [] else [names[i]])
  {
    assert names[..i + 1][..i] == names[..i];
  }

  lemma {:induction false} KeptObjectsPrefix(names: seq<string>, grabAnims: bool, i: nat)
    requires i <= |names|
    ensures |KeptObjects(names[..i], grabAnims)| <= |KeptObjects(names, grabAnims)|
    decreases |names|
  {
    if i < |names| {
      assert names[..|names| - 1][..i] == names[..i];
      KeptObjectsPrefix(names[..|names| - 1], grabAnims, i);
    } else {
      assert names[..i] == names;
    }
  }
}
