/** The user interface's arena and bot lists in ui_gameinfo.c: the parser of
    "{ key value ... }" info blocks, the file loaders with their count limits,
    the sorted map list, and the bot lookups. */
module UiGameInfo {
  import opened QShared

  // Quake III values of constants from headers that are not part of this model.
  const MAX_ARENAS: int := 1024
  const MAX_BOTS: int := 1024
  const MAX_ARENAS_TEXT: int := 8192
  const MAX_BOTS_TEXT: int := 8192
  const MAX_MAPS: int := 128

  /** A token of Com_ParseExt: its text and whether a line break came before it. */
  datatype Tok = Tok(text: string, newLine: bool)

  /** An info string, as the key/value pairs handed to Info_SetValueForKey in
      order. */
  type Info = seq<(string, string)>

  // ---------------------------------------------------------------------------
  // UI_ParseInfos, on values.

  /** The value after a key, read without crossing a line break: a missing or
      empty value becomes "<NULL>"; a token on the next line is left unread. */
  function ValueAt(toks: seq<Tok>, pos: nat): (r: (string, nat))
    ensures pos <= r.1 <= pos + 1 && r.1 <= |toks| + (if pos > |toks| then pos - |toks| else 0)
    ensures r.0 != []
  {
    if pos >= |toks| || toks[pos].newLine then ("<NULL>", pos)
    else if toks[pos].text == [] then ("<NULL>", pos + 1)
    else (toks[pos].text, pos + 1)
  }

  /** The pairs of a block whose "{" has been read, up to its "}" or the end of
      the input, and the position after it. */
  function Block(toks: seq<Tok>, pos: nat): (r: (Info, nat))
    requires pos <= |toks|
    ensures pos <= r.1 <= |toks|
    decreases |toks| - pos
  {
    if pos == |toks| then ([], pos)
    else if toks[pos].text == [] || toks[pos].text == "}" then ([], pos + 1)
    else
      var value := ValueAt(toks, pos + 1);
      var rest := Block(toks, value.1);
      ([(toks[pos].text, value.0)] + rest.0, rest.1)
  }

  /** Whether UI_Alloc succeeds for the n-th block: the outcomes are a
      parameter, and once they run out every allocation succeeds. */
  function AllocOk(allocs: seq<bool>, n: nat): bool
  {
    n >= |allocs| || allocs[n]
  }

  /** The infos read from pos on, count of them already stored and attempt
      blocks already read. */
  function Infos(toks: seq<Tok>, pos: nat, max: int, allocs: seq<bool>, count: int, attempt: nat): seq<Info>
    requires pos <= |toks|
    decreases |toks| - pos
  {
    if pos == |toks| || toks[pos].text == [] || toks[pos].text != "{" || count == max then []
    else
      var block := Block(toks, pos + 1);
      if AllocOk(allocs, attempt) then [block.0] + Infos(toks, block.1, max, allocs, count + 1, attempt + 1)
      else Infos(toks, block.1, max, allocs, count, attempt + 1)
  }

  /** Never more infos than the room left. */
  lemma {:induction false} InfosBound(toks: seq<Tok>, pos: nat, max: int, allocs: seq<bool>, count: int, attempt: nat)
    requires pos <= |toks| && count <= max
    ensures count + |Infos(toks, pos, max, allocs, count, attempt)| <= max
    decreases |toks| - pos
  {
    if !(pos == |toks| || toks[pos].text == [] || toks[pos].text != "{" || count == max) {
      var block := Block(toks, pos + 1);
      if AllocOk(allocs, attempt) {
        InfosBound(toks, block.1, max, allocs, count + 1, attempt + 1);
      } else {
        InfosBound(toks, block.1, max, allocs, count, attempt + 1);
      }
    }
  }

  /** The blocks written back as tokens: "{", each key at the start of a line
      with its value after it on the same line, then "}". */
  function Serialize(blocks: seq<Info>): seq<Tok>
  {
    if blocks == [] then [] else [Tok("{", true)] + Pairs(blocks[0]) + [Tok("}", true)] + Serialize(blocks[1..])
  }

  function Pairs(info: Info): seq<Tok>
  {
    if info == [] then [] else [Tok(info[0].0, true), Tok(info[0].1, false)] + Pairs(info[1..])
  }

  /** Keys the block parser can read back: not empty and not "}"; values not
      empty (an empty one would come back as "<NULL>"). */
  predicate WellFormed(info: Info) {
    forall i :: 0 <= i < |info| ==> info[i].0 != [] && info[i].0 != "}" && info[i].1 != []
  }

  lemma {:induction false} BlockRoundTrip(info: Info, rest: seq<Tok>)
    requires WellFormed(info)
    ensures Block(Pairs(info) + [Tok("}", true)] + rest, 0) == (info, |Pairs(info)| + 1)
  {
    var toks := Pairs(info) + [Tok("}", true)] + rest;
    if info == [] {
      assert toks[0] == Tok("}", true);
    } else {
      var tail := Pairs(info[1..]) + [Tok("}", true)] + rest;
      assert toks == [Tok(info[0].0, true), Tok(info[0].1, false)] + tail;
      assert WellFormed(info[1..]) by {
        forall i | 0 <= i < |info[1..]| ensures info[1..][i].0 != [] && info[1..][i].0 != "}" && info[1..][i].1 != [] {
          assert info[1..][i] == info[i + 1];
        }
      }
      BlockRoundTrip(info[1..], rest);
      BlockShift(toks, 2, tail);
      assert ValueAt(toks, 1) == (info[0].1, 2);
      assert info == [info[0]] + info[1..];
    }
  }

  /** Block only looks at the tokens from its position on. */
  lemma {:induction false} BlockShift(toks: seq<Tok>, k: nat, tail: seq<Tok>)
    requires k <= |toks| && toks[k..] == tail
    ensures Block(toks, k).0 == Block(tail, 0).0 && Block(toks, k).1 == k + Block(tail, 0).1
    decreases |toks| - k
  {
    if k < |toks| && toks[k].text != [] && toks[k].text != "}" {
      var v := ValueAt(toks, k + 1);
      var w := ValueAt(tail, 1);
      assert v.0 == w.0 && v.1 == k + w.1;
      BlockShift(toks, v.1, tail[w.1..]);
      BlockShift(tail, w.1, tail[w.1..]);
    }
  }

  /** Writing well-formed blocks out and parsing them back gives them again,
      given room for all of them and no failed allocation. */
  lemma {:induction false} ParseRoundTrip(blocks: seq<Info>, max: int, allocs: seq<bool>, count: int, attempt: nat)
    requires forall b :: b in blocks ==> WellFormed(b)
    requires count + |blocks| <= max
    requires forall k :: attempt <= k < attempt + |blocks| ==> AllocOk(allocs, k)
    ensures Infos(Serialize(blocks), 0, max, allocs, count, attempt) == blocks
  {
    if blocks != [] {
      var toks := Serialize(blocks);
      var info := blocks[0];
      var rest := Serialize(blocks[1..]);
      var body := Pairs(info) + [Tok("}", true)] + rest;
      assert toks == [Tok("{", true)] + body;
      BlockRoundTrip(info, rest);
      BlockShift(toks, 1, body);
      var next := |Pairs(info)| + 2;
      assert toks[next..] == rest;
      assert AllocOk(allocs, attempt);
      InfosFirst(toks, max, allocs, count, attempt, info, next);
      InfosShift(toks, next, rest, max, allocs, count + 1, attempt + 1);
      ParseRoundTrip(blocks[1..], max, allocs, count + 1, attempt + 1);
      assert blocks == [info] + blocks[1..];
    }
  }

  /** A block that opens the input and is stored comes first. */
  lemma InfosFirst(toks: seq<Tok>, max: int, allocs: seq<bool>, count: int, attempt: nat, info: Info, next: nat)
    requires toks != [] && toks[0].text == "{" && count != max && AllocOk(allocs, attempt)
    requires Block(toks, 1) == (info, next)
    ensures Infos(toks, 0, max, allocs, count, attempt) == [info] + Infos(toks, next, max, allocs, count + 1, attempt + 1)
  {
  }

  /** Infos only looks at the tokens from its position on. */
  lemma {:induction false} InfosShift(toks: seq<Tok>, k: nat, tail: seq<Tok>, max: int, allocs: seq<bool>, count: int, attempt: nat)
    requires k <= |toks| && toks[k..] == tail
    ensures Infos(toks, k, max, allocs, count, attempt) == Infos(tail, 0, max, allocs, count, attempt)
    decreases |toks| - k
  {
    if !(k == |toks| || toks[k].text == [] || toks[k].text != "{" || count == max) {
      BlockShift(toks, k + 1, tail[1..]);
      BlockShift(tail, 1, tail[1..]);
      var b := Block(toks, k + 1);
      var c := Block(tail, 1);
      assert b.1 == k + c.1;
      InfosShift(toks, b.1, tail[c.1..], max, allocs, count + 1, attempt + 1);
      InfosShift(tail, c.1, tail[c.1..], max, allocs, count + 1, attempt + 1);
      InfosShift(toks, b.1, tail[c.1..], max, allocs, count, attempt + 1);
      InfosShift(tail, c.1, tail[c.1..], max, allocs, count, attempt + 1);
    }
  }

  /** Anything but "{" where a block should start ends the parse. */
  lemma MissingBraceStops(toks: seq<Tok>, max: int, allocs: seq<bool>)
    requires toks != [] && toks[0].text != "{"
    ensures Infos(toks, 0, max, allocs, 0, 0) == []
  {
  }

  /** One pair of a block: an empty key or "}" closes it; any other key
      takes the value after it and the block goes on. */
  lemma BlockStep(toks: seq<Tok>, pos: nat)
    requires pos < |toks|
    ensures toks[pos].text == [] || toks[pos].text == "}" ==> Block(toks, pos) == ([], pos + 1)
    ensures !(toks[pos].text == [] || toks[pos].text == "}") ==>
      var v := ValueAt(toks, pos + 1);
      Block(toks, pos) == ([(toks[pos].text, v.0)] + Block(toks, v.1).0, Block(toks, v.1).1)
  {
  }

  /** The inner loop of UI_ParseInfos: the pairs of one block, read up to
      its "}", an empty token or the end of the input. */
  method ReadBlock(toks: seq<Tok>, start: nat) returns (info: Info, pos: nat)
    requires start <= |toks|
    ensures (info, pos) == Block(toks, start)
  {
    info := [];
    pos := start;
    while true
      invariant start <= pos <= |toks|
      invariant info + Block(toks, pos).0 == Block(toks, start).0 && Block(toks, pos).1 == Block(toks, start).1
      decreases |toks| - pos
    {
      if pos == |toks| {
        assert info + [] == info;
        break;
      }
      BlockStep(toks, pos);
      var key := toks[pos].text;
      if key == [] || key == "}" {
        assert info + [] == info;
        pos := pos + 1;
        break;
      }
      ghost var at := pos;
      pos := pos + 1;
      var value: string;
      if pos == |toks| || toks[pos].newLine {
        value := [];
      } else {
        value := toks[pos].text;
        pos := pos + 1;
      }
      if value == [] {
        value := "<NULL>";
      }
      assert (value, pos) == ValueAt(toks, at + 1);
      ConcatAssoc(info, [(key, value)], Block(toks, pos).0);
      info := info + [(key, value)];
    }
  }

  /** UI_ParseInfos: reads info blocks until the input ends, a block does not
      start with "{", or max infos are stored; a block is stored only when its
      allocation succeeds. */
  method ParseInfos(toks: seq<Tok>, max: int, allocs: seq<bool>) returns (infos: seq<Info>)
    ensures infos == Infos(toks, 0, max, allocs, 0, 0)
    ensures max >= 0 ==> |infos| <= max
  {
    infos := [];
    var pos := 0;
    var attempt := 0;
    while true
      invariant 0 <= pos <= |toks|
      invariant infos + Infos(toks, pos, max, allocs, |infos|, attempt) == Infos(toks, 0, max, allocs, 0, 0)
      decreases |toks| - pos
    {
      if pos == |toks| || toks[pos].text == [] || toks[pos].text != "{" || |infos| == max {
        break;
      }
      ghost var rest := Infos(toks, pos, max, allocs, |infos|, attempt);
      var info, next := ReadBlock(toks, pos + 1);
      if AllocOk(allocs, attempt) {
        assert rest == [info] + Infos(toks, next, max, allocs, |infos| + 1, attempt + 1);
        ConcatAssoc(infos, [info], Infos(toks, next, max, allocs, |infos| + 1, attempt + 1));
        infos := infos + [info];
      }
      attempt := attempt + 1;
      pos := next;
    }
    if max >= 0 {
      InfosBound(toks, 0, max, allocs, 0, 0);
    }
  }

  // ---------------------------------------------------------------------------
  // Lookups in an info string.

  /** Info_ValueForKey: the value last set for key (keys compared ignoring
      case), or "" when there is none. */
  function ValueForKey(info: Info, key: string): (r: string)
    ensures (forall i :: 0 <= i < |info| ==> !EqualsIgnoreCase(info[i].0, key)) ==> r == []
    ensures (exists i :: 0 <= i < |info| && EqualsIgnoreCase(info[i].0, key)) ==>
              exists i :: 0 <= i < |info| && EqualsIgnoreCase(info[i].0, key) && info[i].1 == r &&
                forall k :: i < k < |info| ==> !EqualsIgnoreCase(info[k].0, key)
  {
    if info == [] then []
    else if EqualsIgnoreCase(info[|info| - 1].0, key) then info[|info| - 1].1
    else
      var front := info[..|info| - 1];
      assert forall i :: 0 <= i < |front| ==> front[i] == info[i];
      ValueForKey(front, key)
  }

  /** A map of the map list. */
  datatype MapInfo = MapInfo(mapLoadName: string, mapName: string, imageName: string, cinematic: int, levelShot: int)

  /** qsort with UI_MapNameCompare: ascending by map name, ignoring case. */
  predicate SortedByName(maps: seq<MapInfo>) {
    forall i, j :: 0 <= i < j < |maps| ==> LeqIgnoreCase(maps[i].mapName, maps[j].mapName)
  }

  /** Inserting one map into a sorted list. */
  function Insert(m: MapInfo, sorted: seq<MapInfo>): (r: seq<MapInfo>)
    ensures |r| == |sorted| + 1
    ensures multiset(r) == multiset(sorted) + multiset{m}
  {
    if sorted == [] || LeqIgnoreCase(m.mapName, sorted[0].mapName) then [m] + sorted
    else
      assert sorted == [sorted[0]] + sorted[1..];
      [sorted[0]] + Insert(m, sorted[1..])
  }

  lemma {:induction false} InsertSorted(m: MapInfo, sorted: seq<MapInfo>)
    requires SortedByName(sorted)
    ensures SortedByName(Insert(m, sorted))
    ensures Insert(m, sorted) != [] && (Insert(m, sorted)[0] == m || (sorted != [] && Insert(m, sorted)[0] == sorted[0]))
  {
    if sorted == [] || LeqIgnoreCase(m.mapName, sorted[0].mapName) {
      forall x | x in sorted ensures LeqIgnoreCase(m.mapName, x.mapName) {
        var k :| 0 <= k < |sorted| && sorted[k] == x;
        if k > 0 {
          LexLeqTransitive(Upper(m.mapName), Upper(sorted[0].mapName), Upper(x.mapName));
        }
      }
      ConsSorted(m, sorted);
    } else {
      var tail := sorted[1..];
      TailSorted(sorted);
      InsertSorted(m, tail);
      LexLeqTotal(Upper(m.mapName), Upper(sorted[0].mapName));
      forall x | x in Insert(m, tail) ensures LeqIgnoreCase(sorted[0].mapName, x.mapName) {
        assert x in multiset(Insert(m, tail));
        if x != m {
          assert x in multiset(tail);
          var k :| 0 <= k < |tail| && tail[k] == x;
          assert sorted[k + 1] == x;
        }
      }
      ConsSorted(sorted[0], Insert(m, tail));
    }
  }

  /** A sorted list stays sorted without its head. */
  lemma TailSorted(sorted: seq<MapInfo>)
    requires sorted != [] && SortedByName(sorted)
    ensures SortedByName(sorted[1..])
  {
    var tail := sorted[1..];
    forall i, j | 0 <= i < j < |tail| ensures LeqIgnoreCase(tail[i].mapName, tail[j].mapName) {
      assert tail[i] == sorted[i + 1] && tail[j] == sorted[j + 1];
    }
  }

  /** A map no later than every map of a sorted list can go in front of it. */
  lemma ConsSorted(h: MapInfo, t: seq<MapInfo>)
    requires SortedByName(t)
    requires forall x :: x in t ==> LeqIgnoreCase(h.mapName, x.mapName)
    ensures SortedByName([h] + t)
  {
    var r := [h] + t;
    forall i, j | 0 <= i < j < |r| ensures LeqIgnoreCase(r[i].mapName, r[j].mapName) {
      assert r[j] == t[j - 1];
      if i > 0 {
        assert r[i] == t[i - 1];
      }
    }
  }

  /** The map list sorted by name: a permutation of maps in ascending order. */
  function SortByName(maps: seq<MapInfo>): (r: seq<MapInfo>)
    ensures |r| == |maps|
    ensures multiset(r) == multiset(maps)
  {
    if maps == [] then []
    else
      assert maps == [maps[0]] + maps[1..];
      Insert(maps[0], SortByName(maps[1..]))
  }

  lemma {:induction false} SortByNameSorted(maps: seq<MapInfo>)
    ensures SortedByName(SortByName(maps))
  {
    if maps != [] {
      SortByNameSorted(maps[1..]);
      InsertSorted(maps[0], SortByName(maps[1..]));
    }
  }

  /** An arena file as the loader sees it: whether it opened, its length, its
      tokens, and the allocation outcomes for its blocks. */
  datatype InfoFile = InfoFile(found: bool, len: int, toks: seq<Tok>, allocs: seq<bool>)

  /** The infos one file adds when room infos still fit: none when it is
      missing or maxText bytes long or more. */
  function FileInfos(file: InfoFile, room: int, maxText: int): seq<Info>
  {
    if !file.found || file.len >= maxText then [] else Infos(file.toks, 0, room, file.allocs, 0, 0)
  }

  /** The list after loading files one after another onto acc, maxInfos of
      them at most. */
  function LoadedFrom(acc: seq<Info>, files: seq<InfoFile>, maxInfos: int, maxText: int): seq<Info>
    decreases |files|
  {
    if files == [] then acc
    else LoadedFrom(acc + FileInfos(files[0], maxInfos - |acc|, maxText), files[1..], maxInfos, maxText)
  }

  /** Loading keeps what was loaded before and never goes past maxInfos. */
  lemma {:induction false} LoadedFromBound(acc: seq<Info>, files: seq<InfoFile>, maxInfos: int, maxText: int)
    requires |acc| <= maxInfos
    ensures |acc| <= |LoadedFrom(acc, files, maxInfos, maxText)| <= maxInfos
    ensures LoadedFrom(acc, files, maxInfos, maxText)[..|acc|] == acc
    decreases |files|
  {
    if files != [] {
      var added := FileInfos(files[0], maxInfos - |acc|, maxText);
      if files[0].found && files[0].len < maxText {
        InfosBound(files[0].toks, 0, maxInfos - |acc|, files[0].allocs, 0, 0);
      }
      LoadedFromBound(acc + added, files[1..], maxInfos, maxText);
      var r := LoadedFrom(acc + added, files[1..], maxInfos, maxText);
      assert r[..|acc|] == r[..|acc + added|][..|acc|];
      assert (acc + added)[..|acc|] == acc;
    }
  }

  /** The entry of the map list built from an arena info. */
  function MapFromArena(info: Info): MapInfo
  {
    var loadName := ValueForKey(info, "map");
    MapInfo(loadName, ValueForKey(info, "longname"), "levelshots/" + loadName, -1, -1)
  }

  /** The first n arenas made into map entries. */
  function MapsFromArenas(arenas: seq<Info>, n: nat): (r: seq<MapInfo>)
    requires n <= |arenas|
    ensures |r| == n
  {
    if n == 0 then [] else MapsFromArenas(arenas, n - 1) + [MapFromArena(arenas[n - 1])]
  }

  /** The map-list loop of UI_LoadArenas: one entry per arena, in order, until
      MAX_MAPS entries are made. */
  method BuildMaps(arenas: seq<Info>) returns (maps: seq<MapInfo>)
    ensures |maps| == if |arenas| < MAX_MAPS then |arenas| else MAX_MAPS
    ensures maps == MapsFromArenas(arenas, |maps|)
  {
    maps := [];
    var n := 0;
    while n < |arenas|
      invariant 0 <= n <= |arenas| && n < MAX_MAPS && |maps| == n
      invariant maps == MapsFromArenas(arenas, n)
    {
      maps := maps + [MapFromArena(arenas[n])];
      n := n + 1;
      if |maps| >= MAX_MAPS {
        return;
      }
    }
  }

  /** The user interface's arena, bot and map lists. */
  class GameInfo {
    var arenaInfos: seq<Info>
    var botInfos: seq<Info>
    var mapList: seq<MapInfo>

    /** The totals never exceed the sizes of their arrays. */
    ghost predicate Valid()
      reads this
    {
      |arenaInfos| <= MAX_ARENAS && |botInfos| <= MAX_BOTS && |mapList| <= MAX_MAPS
    }

    constructor ()
      ensures Valid() && arenaInfos == [] && botInfos == [] && mapList == []
    {
      arenaInfos, botInfos, mapList := [], [], [];
    }

    /** UI_LoadArenasFromFile: a missing file or one of MAX_ARENAS_TEXT bytes
        or more is skipped; otherwise its infos are added, up to MAX_ARENAS in
        all. */
    method LoadArenasFromFile(file: InfoFile)
      requires Valid()
      modifies this`arenaInfos
      ensures Valid()
      ensures arenaInfos == old(arenaInfos) + FileInfos(file, MAX_ARENAS - |old(arenaInfos)|, MAX_ARENAS_TEXT)
    {
      if !file.found {
        return;
      }
      if file.len >= MAX_ARENAS_TEXT {
        return;
      }
      var parsed := ParseInfos(file.toks, MAX_ARENAS - |arenaInfos|, file.allocs);
      arenaInfos := arenaInfos + parsed;
    }

    /** UI_LoadBotsFromFile: the same limits with MAX_BOTS_TEXT and MAX_BOTS. */
    method LoadBotsFromFile(file: InfoFile)
      requires Valid()
      modifies this`botInfos
      ensures Valid()
      ensures botInfos == old(botInfos) + FileInfos(file, MAX_BOTS - |old(botInfos)|, MAX_BOTS_TEXT)
    {
      if !file.found {
        return;
      }
      if file.len >= MAX_BOTS_TEXT {
        return;
      }
      var parsed := ParseInfos(file.toks, MAX_BOTS - |botInfos|, file.allocs);
      botInfos := botInfos + parsed;
    }

    /** UI_LoadArenas: reloads every arena file, then builds the map list from
        the first MAX_MAPS arenas and sorts it by name. */
    method LoadArenas(files: seq<InfoFile>)
      requires Valid()
      modifies this`arenaInfos, this`mapList
      ensures Valid()
      ensures arenaInfos == LoadedFrom([], files, MAX_ARENAS, MAX_ARENAS_TEXT)
      ensures |mapList| == if |arenaInfos| < MAX_MAPS then |arenaInfos| else MAX_MAPS
      ensures multiset(mapList) == multiset(MapsFromArenas(arenaInfos, |mapList|))
      ensures SortedByName(mapList)
    {
      arenaInfos := [];
      var i := 0;
      while i < |files|
        invariant i <= |files| && Valid()
        invariant LoadedFrom(arenaInfos, files[i..], MAX_ARENAS, MAX_ARENAS_TEXT) == LoadedFrom([], files, MAX_ARENAS, MAX_ARENAS_TEXT)
      {
        LoadArenasFromFile(files[i]);
        assert files[i..][1..] == files[i + 1..];
        i := i + 1;
      }
      var maps := BuildMaps(arenaInfos);
      mapList := SortByName(maps);
      SortByNameSorted(maps);
    }

    /** UI_LoadBots: starts over, loads the configured bots file (g_botsFile,
        or scripts/bots.txt when that is empty), then every .bot file. */
    method LoadBots(first: InfoFile, files: seq<InfoFile>)
      requires Valid()
      modifies this`botInfos
      ensures Valid()
      ensures botInfos == LoadedFrom([], [first] + files, MAX_BOTS, MAX_BOTS_TEXT)
    {
      botInfos := [];
      LoadBotsFromFile(first);
      assert ([first] + files)[1..] == files;
      var i := 0;
      while i < |files|
        invariant i <= |files| && Valid()
        invariant LoadedFrom(botInfos, files[i..], MAX_BOTS, MAX_BOTS_TEXT) == LoadedFrom([], [first] + files, MAX_BOTS, MAX_BOTS_TEXT)
      {
        LoadBotsFromFile(files[i]);
        assert files[i..][1..] == files[i + 1..];
        i := i + 1;
      }
    }

    /** UI_GetNumBots. */
    function GetNumBots(): (r: nat)
      reads this
      ensures r == |botInfos|
      ensures Valid() ==> r <= MAX_BOTS
    {
      |botInfos|
    }

    /** UI_GetBotInfoByNumber: None outside 0..numBots-1. */
    function GetBotInfoByNumber(num: int): (r: Option<Info>)
      reads this
      ensures r.None? <==> num < 0 || num >= |botInfos|
      ensures r.Some? ==> r.value == botInfos[num]
    {
      if num < 0 || num >= |botInfos| then None else Some(botInfos[num])
    }

    /** UI_GetBotNameByNumber: the bot's name, or "Visor" for a bad number. */
    function GetBotNameByNumber(num: int): (r: string)
      reads this
      ensures num < 0 || num >= |botInfos| ==> r == "Visor"
      ensures 0 <= num < |botInfos| ==> r == ValueForKey(botInfos[num], "name")
    {
      var info := GetBotInfoByNumber(num);
      if info.Some? then ValueForKey(info.value, "name") else "Visor"
    }

    /** UI_GetBotInfoByName: the first bot whose name matches, ignoring case. */
    method GetBotInfoByName(name: string) returns (r: Option<nat>)
      ensures r.Some? ==> r.value < |botInfos| && EqualsIgnoreCase(ValueForKey(botInfos[r.value], "name"), name)
      ensures r.Some? ==> forall k :: 0 <= k < r.value ==> !EqualsIgnoreCase(ValueForKey(botInfos[k], "name"), name)
      ensures r.None? ==> forall k :: 0 <= k < |botInfos| ==> !EqualsIgnoreCase(ValueForKey(botInfos[k], "name"), name)
    {
      var n := 0;
      while n < |botInfos|
        invariant 0 <= n <= |botInfos|
        invariant forall k :: 0 <= k < n ==> !EqualsIgnoreCase(ValueForKey(botInfos[k], "name"), name)
      {
        var value := ValueForKey(botInfos[n], "name");
        if EqualsIgnoreCase(value, name) {
          return Some(n);
        }
        n := n + 1;
      }
      return None;
    }
  }
}
