/** The client game's bookkeeping in cg_main.c: the precache-string splitter,
    the config-string bounds check, the crosshair and attacker getters, and the
    scoreboard feeders that map list positions to scores. */
module CgMain {
  import opened QShared

  // Quake III values of constants from headers that are not part of this model.
  const MAX_QPATH: int := 64
  const MAX_CONFIGSTRINGS: int := 1024
  const MAX_CLIENTS: int := 64
  const MAX_STRING_CHARS: int := 1024
  const TEAM_RED: int := 1
  const TEAM_BLUE: int := 2
  const TEAM_SPECTATOR: int := 3

  /** The crosshair name stays for one second after the crosshair leaves a player. */
  const CROSSHAIR_HOLD: int := 1000

  // ---------------------------------------------------------------------------
  // Getters.

  /** CG_CrosshairPlayer: the client under the crosshair, or -1 once the hold
      time has run out. */
  function CrosshairPlayer(time: int, crosshairClientTime: int, crosshairClientNum: int): (r: int)
    ensures r == -1 || r == crosshairClientNum
    ensures time > crosshairClientTime + CROSSHAIR_HOLD ==> r == -1
    ensures time <= crosshairClientTime + CROSSHAIR_HOLD ==> r == crosshairClientNum
  {
    if time > crosshairClientTime + CROSSHAIR_HOLD then -1 else crosshairClientNum
  }

  /** CG_LastAttacker: -1 while nobody has attacked, else the recorded attacker. */
  function LastAttacker(attackerTime: int, persAttacker: int): (r: int)
    ensures attackerTime == 0 ==> r == -1
    ensures attackerTime != 0 ==> r == persAttacker
  {
    if attackerTime == 0 then -1 else persAttacker
  }

  /** CG_ConfigString: an index outside the table is a fatal error. */
  function ConfigString(configStrings: seq<string>, index: int): (r: Outcome<string>)
    requires |configStrings| == MAX_CONFIGSTRINGS
    ensures r.Fatal? <==> index < 0 || index >= MAX_CONFIGSTRINGS
    ensures r.Done? ==> r.value == configStrings[index]
  {
    if index < 0 || index >= MAX_CONFIGSTRINGS then Fatal("CG_ConfigString: bad index")
    else Done(configStrings[index])
  }

  // ---------------------------------------------------------------------------
  // CG_RegisterItemSounds: the space-separated precache string.

  /** The index of the first ' ' in s, or |s|. */
  function SpaceAt(s: string): (k: nat)
    ensures k <= |s| && forall j :: 0 <= j < k ==> s[j] != ' '
    ensures k < |s| ==> s[k] == ' '
  {
    if s == [] || s[0] == ' ' then 0 else 1 + SpaceAt(s[1..])
  }

  /** The tokens the splitter reads: s cut at every ' ', one separator skipped
      after each token, so a trailing space ends the string without a token. */
  function Pieces(s: string): (ps: seq<string>)
    decreases |s|
  {
    if s == [] then []
    else
      var k := SpaceAt(s);
      [s[..k]] + (if k < |s| then Pieces(s[k + 1..]) else [])
  }

  /** Joining tokens with single spaces. */
  function JoinSpaces(ps: seq<string>): string
  {
    if ps == [] then [] else if |ps| == 1 then ps[0] else ps[0] + " " + JoinSpaces(ps[1..])
  }

  /** No token holds a space. */
  lemma {:induction false} PiecesNoSpace(s: string)
    ensures forall i :: 0 <= i < |Pieces(s)| ==> ' ' !in Pieces(s)[i]
    decreases |s|
  {
    if s != [] {
      var k := SpaceAt(s);
      var head := s[..k];
      var rest := if k < |s| then Pieces(s[k + 1..]) else [];
      if k < |s| {
        PiecesNoSpace(s[k + 1..]);
      }
      assert Pieces(s) == [head] + rest;
      assert forall j :: 0 <= j < |head| ==> head[j] == s[j];
      forall i | 0 <= i < |Pieces(s)|
        ensures ' ' !in Pieces(s)[i]
      {
        if i > 0 {
          assert Pieces(s)[i] == rest[i - 1];
        }
      }
    }
  }

  lemma JoinCons(a: string, ps: seq<string>)
    requires ps != []
    ensures JoinSpaces([a] + ps) == a + " " + JoinSpaces(ps)
  {
    assert ([a] + ps)[1..] == ps;
  }

  /** The one trailing separator that ends a string without a token. */
  function Trail(s: string): string
  {
    if s != [] && s[|s| - 1] == ' ' then " " else ""
  }

  /** Joining the tokens back with single spaces gives the string, less one
      trailing space. */
  lemma {:induction false} PiecesJoin(s: string)
    ensures JoinSpaces(Pieces(s)) + Trail(s) == s
    decreases |s|
  {
    if s != [] {
      var k := SpaceAt(s);
      var head := s[..k];
      if k < |s| {
        var t := s[k + 1..];
        PiecesJoin(t);
        PiecesSplit(s, k, head, t);
      } else {
        assert head == s;
        assert Pieces(s) == [s];
      }
    }
  }

  /** Pieces at the first space k of s. */
  lemma PiecesUnfold(s: string, k: nat, head: string, t: string)
    requires s != [] && k == SpaceAt(s) < |s| && head == s[..k] && t == s[k + 1..]
    ensures Pieces(s) == [head] + Pieces(t) && s == head + " " + t
  {
    SplitAtSpace(s, k);
  }

  /** A string is the text before one of its spaces, the space and the rest. */
  lemma SplitAtSpace(s: string, k: nat)
    requires k < |s| && s[k] == ' '
    ensures s == s[..k] + " " + s[k + 1..]
  {
    assert s == s[..k] + [s[k]] + s[k + 1..];
  }

  /** The inductive step of PiecesJoin, at the first space k of s. */
  lemma PiecesSplit(s: string, k: nat, head: string, t: string)
    requires s != [] && k == SpaceAt(s) < |s| && head == s[..k] && t == s[k + 1..]
    requires JoinSpaces(Pieces(t)) + Trail(t) == t
    ensures JoinSpaces(Pieces(s)) + Trail(s) == s
  {
    PiecesUnfold(s, k, head, t);
    if t == [] {
      LastSpace(s, head);
    } else {
      assert Pieces(t) != [];
      JoinRest(s, head, t, Pieces(t));
    }
  }

  lemma LastSpace(s: string, head: string)
    requires s == head + " " && Pieces(s) == [head]
    ensures JoinSpaces(Pieces(s)) + Trail(s) == s
  {
  }

  /** The step of PiecesSplit when text follows the first space: ps are the
      tokens of that text. */
  lemma JoinRest(s: string, head: string, t: string, ps: seq<string>)
    requires s == head + " " + t && t != [] && ps != []
    requires JoinSpaces(ps) + Trail(t) == t
    ensures JoinSpaces([head] + ps) + Trail(s) == s
  {
    assert s[|s| - 1] == t[|t| - 1];
    assert Trail(t) == Trail(s);
    JoinCons(head, ps);
    assert JoinSpaces([head] + ps) + Trail(s) == head + " " + (JoinSpaces(ps) + Trail(t));
  }

  /** A precache token must have 5 to MAX_QPATH - 1 characters. */
  predicate GoodLength(tok: string) {
    5 <= |tok| < MAX_QPATH
  }

  /** Only tokens ending in "wav" are registered. */
  predicate EndsWithWav(tok: string) {
    |tok| >= 3 && tok[|tok| - 3..] == "wav"
  }

  /** The sounds registered for the tokens ps, in order, and whether a token of
      bad length stopped the processing (with CG_Error). */
  function Precache(ps: seq<string>): (r: (seq<string>, bool))
  {
    if ps == [] then ([], false)
    else if !GoodLength(ps[0]) then ([], true)
    else
      var rest := Precache(ps[1..]);
      ((if EndsWithWav(ps[0]) then [ps[0]] else []) + rest.0, rest.1)
  }

  /** The processing fails exactly when some token has a bad length; every
      registered sound is a well-sized "wav" token. */
  lemma {:induction false} PrecacheSpec(ps: seq<string>)
    ensures Precache(ps).1 <==> exists i :: 0 <= i < |ps| && !GoodLength(ps[i])
    ensures forall j :: 0 <= j < |Precache(ps).0| ==>
      GoodLength(Precache(ps).0[j]) && EndsWithWav(Precache(ps).0[j]) && Precache(ps).0[j] in ps
  {
    if ps != [] && GoodLength(ps[0]) {
      PrecacheSpec(ps[1..]);
      if exists i :: 0 <= i < |ps[1..]| && !GoodLength(ps[1..][i]) {
        var i :| 0 <= i < |ps[1..]| && !GoodLength(ps[1..][i]);
        assert !GoodLength(ps[i + 1]);
      }
      if exists i :: 0 <= i < |ps| && !GoodLength(ps[i]) {
        var i :| 0 <= i < |ps| && !GoodLength(ps[i]);
        assert i > 0 && ps[1..][i - 1] == ps[i];
      }
      forall j | 0 <= j < |Precache(ps[1..]).0| ensures Precache(ps[1..]).0[j] in ps {
        var x := Precache(ps[1..]).0[j];
        assert x in ps[1..];
      }
    }
  }

  /** A leading space, or two spaces in a row, make an empty token, which the
      length check rejects. */
  lemma EmptyTokenFails(s: string, i: nat)
    requires i < |s| && s[i] == ' ' && (i == 0 || s[i - 1] == ' ')
    ensures Precache(Pieces(s)).1
  {
    EmptyPiece(s, i);
    var ps := Pieces(s);
    var j :| 0 <= j < |ps| && ps[j] == [];
    PrecacheSpec(ps);
    assert !GoodLength(ps[j]);
  }

  /** A leading space, or two spaces in a row, make an empty token. */
  lemma {:induction false} EmptyPiece(s: string, i: nat)
    requires i < |s| && s[i] == ' ' && (i == 0 || s[i - 1] == ' ')
    ensures [] in Pieces(s)
    decreases |s|
  {
    var k := SpaceAt(s);
    var head, t := s[..k], s[k + 1..];
    PiecesUnfold(s, k, head, t);
    if head != [] {
      DoubleSpaceAfter(s, i, k);
      EmptyPiece(t, i - k - 1);
    }
  }

  /** Past the first space, the two spaces at i - 1 and i are still there,
      shifted. */
  lemma DoubleSpaceAfter(s: string, i: nat, k: nat)
    requires 0 < i < |s| && s[i] == ' ' && s[i - 1] == ' ' && k == SpaceAt(s)
    ensures k < i && s[k + 1..][i - k - 1] == ' '
    ensures i - k - 1 == 0 || s[k + 1..][i - k - 2] == ' '
  {
    assert k <= i - 1;
  }

  /** One step of the splitter: the token at pos and the position after its
      separator. */
  lemma PiecesFrom(s: string, pos: nat, e: nat)
    requires pos < |s| && pos <= e <= |s| && (e == |s| || s[e] == ' ')
    requires forall j :: pos <= j < e ==> s[j] != ' '
    ensures var next := if e < |s| then e + 1 else e;
      Pieces(s[pos..]) == [s[pos..e]] + Pieces(s[next..])
  {
    var t := s[pos..];
    SpaceAtFrom(s, pos, e);
    var k := e - pos;
    assert t[..k] == s[pos..e];
    if e < |s| {
      assert t[k + 1..] == s[e + 1..];
    } else {
      assert s[e..] == [];
    }
  }

  /** The first space of s[pos..] is at e. */
  lemma SpaceAtFrom(s: string, pos: nat, e: nat)
    requires pos < |s| && pos <= e <= |s| && (e == |s| || s[e] == ' ')
    requires forall j :: pos <= j < e ==> s[j] != ' '
    ensures SpaceAt(s[pos..]) == e - pos
  {
    var t := s[pos..];
    assert forall j :: 0 <= j < e - pos ==> t[j] != ' ';
    assert e < |s| ==> t[e - pos] == ' ';
  }

  /** Unfolding Precache on a first token. */
  lemma PrecacheCons(tok: string, ps: seq<string>)
    ensures Precache([tok] + ps) == if !GoodLength(tok) then ([], true)
      else ((if EndsWithWav(tok) then [tok] else []) + Precache(ps).0, Precache(ps).1)
  {
    assert ([tok] + ps)[1..] == ps;
  }

  /** The splitter has handled sounds[..pos], registering pre and then the
      sounds of the tokens before pos. */
  ghost predicate Progress(sounds: string, pos: int, pre: seq<string>, registered: seq<string>)
  {
    && 0 <= pos <= |sounds|
    && pre + Precache(Pieces(sounds)).0 == registered + Precache(Pieces(sounds[pos..])).0
    && Precache(Pieces(sounds)).1 == Precache(Pieces(sounds[pos..])).1
  }

  /** A token of good length moves the splitter past it and its separator. */
  lemma ProgressStep(sounds: string, start: nat, e: nat, next: nat, pre: seq<string>,
                     registered: seq<string>, registered': seq<string>)
    requires Progress(sounds, start, pre, registered) && start < |sounds|
    requires start <= e <= |sounds| && (e == |sounds| || sounds[e] == ' ')
    requires forall j :: start <= j < e ==> sounds[j] != ' '
    requires next == if e < |sounds| then e + 1 else e
    requires GoodLength(sounds[start..e])
    requires registered' == registered + (if EndsWithWav(sounds[start..e]) then [sounds[start..e]] else [])
    ensures Progress(sounds, next, pre, registered')
  {
    var tok := sounds[start..e];
    var rest := Pieces(sounds[next..]);
    var w := if EndsWithWav(tok) then [tok] else [];
    PiecesFrom(sounds, start, e);
    assert Pieces(sounds[start..]) == [tok] + rest;
    PrecacheCons(tok, rest);
    var p := Precache(rest);
    assert Precache(Pieces(sounds[start..])) == (w + p.0, p.1);
    ConcatAssoc(registered, w, p.0);
  }

  /** A token of bad length ends the splitter with the error. */
  lemma ProgressFail(sounds: string, start: nat, e: nat, pre: seq<string>, registered: seq<string>)
    requires Progress(sounds, start, pre, registered) && start < |sounds|
    requires start <= e <= |sounds| && (e == |sounds| || sounds[e] == ' ')
    requires forall j :: start <= j < e ==> sounds[j] != ' '
    requires !GoodLength(sounds[start..e])
    ensures registered == pre + Precache(Pieces(sounds)).0 && Precache(Pieces(sounds)).1
  {
    var next := if e < |sounds| then e + 1 else e;
    PiecesFrom(sounds, start, e);
    PrecacheCons(sounds[start..e], Pieces(sounds[next..]));
  }

  /** The splitter's scan from start to the next ' ' or the end. */
  method NextSpace(s: string, start: nat) returns (pos: nat)
    requires start <= |s|
    ensures start <= pos <= |s| && (pos == |s| || s[pos] == ' ')
    ensures forall j :: start <= j < pos ==> s[j] != ' '
  {
    pos := start;
    while pos < |s| && s[pos] != ' '
      invariant start <= pos <= |s|
      invariant forall j :: start <= j < pos ==> s[j] != ' '
    {
      pos := pos + 1;
    }
  }

  /** CG_RegisterItemSounds: registers the item's pickup sound, then every "wav"
      token of its precache string, stopping with an error at the first token
      of bad length. */
  method RegisterItemSounds(pickup: string, sounds: string) returns (registered: seq<string>, failed: bool)
    ensures var pre := if pickup != [] then [pickup] else [];
      registered == pre + Precache(Pieces(sounds)).0 && failed == Precache(Pieces(sounds)).1
  {
    registered := if pickup != [] then [pickup] else [];
    failed := false;
    ghost var pre := registered;
    if sounds == [] {
      return;
    }
    var pos := 0;
    assert sounds[pos..] == sounds;
    while pos < |sounds|
      invariant Progress(sounds, pos, pre, registered)
      decreases |sounds| - pos
    {
      var start := pos;
      pos := NextSpace(sounds, start);
      var token := sounds[start..pos];
      if |token| >= MAX_QPATH || |token| < 5 {
        ProgressFail(sounds, start, pos, pre, registered);
        failed := true;
        return;
      }
      var e := pos;
      if pos < |sounds| {
        pos := pos + 1;
      }
      ghost var before := registered;
      if EndsWithWav(token) {
        registered := registered + [token];
      }
      ProgressStep(sounds, start, e, pos, pre, before, registered);
    }
    assert sounds[pos..] == [];
  }

  // ---------------------------------------------------------------------------
  // Scores and the scoreboard feeders.

  datatype Score = Score(client: int, team: int)

  /** The feeders of the scoreboard menu that CG_FeederCount tells apart. */
  datatype Feeder = RedTeamList | BlueTeamList | Scoreboard | OtherFeeder

  /** The number of the first n scores on the given team. */
  function CountTeam(scores: seq<Score>, n: nat, team: int): (c: nat)
    requires n <= |scores|
    ensures c <= n
  {
    if n == 0 then 0
    else CountTeam(scores, n - 1, team) + (if scores[n - 1].team == team then 1 else 0)
  }

  /** Nobody is on two teams: the red and blue counts add up to at most n. */
  lemma {:induction false} TeamCountsDisjoint(scores: seq<Score>, n: nat)
    requires n <= |scores|
    ensures CountTeam(scores, n, TEAM_RED) + CountTeam(scores, n, TEAM_BLUE) <= n
  {
    if n > 0 {
      TeamCountsDisjoint(scores, n - 1);
    }
  }

  /** Counting more scores never finds fewer. */
  lemma {:induction false} CountTeamMonotone(scores: seq<Score>, m: nat, n: nat, team: int)
    requires m <= n <= |scores|
    ensures CountTeam(scores, m, team) <= CountTeam(scores, n, team)
    decreases n
  {
    if m < n {
      CountTeamMonotone(scores, m, n - 1, team);
    }
  }

  /** The index among the first n scores of the position-th (from 0) score on
      the given team, if there is one. */
  function NthOfTeam(scores: seq<Score>, n: nat, team: int, position: int): (r: Option<nat>)
    requires n <= |scores|
    ensures r.Some? ==>
      && r.value < n && scores[r.value].team == team
      && CountTeam(scores, r.value, team) == position
  {
    if n == 0 then None
    else
      var prev := NthOfTeam(scores, n - 1, team, position);
      if prev.Some? then prev
      else if scores[n - 1].team == team && CountTeam(scores, n - 1, team) == position then Some(n - 1)
      else None
  }

  /** A position names a score exactly when it is below the team's count. */
  lemma {:induction false} NthOfTeamExists(scores: seq<Score>, n: nat, team: int, position: int)
    requires n <= |scores|
    ensures NthOfTeam(scores, n, team, position).Some? <==> 0 <= position < CountTeam(scores, n, team)
  {
    if n > 0 {
      NthOfTeamExists(scores, n - 1, team, position);
    }
  }

  /** The score selected for the feeder list of a team game. */
  function FeederTeam(feeder: Feeder): int
  {
    if feeder == RedTeamList then TEAM_RED else TEAM_BLUE
  }

  /** The index of the last of the first n scores belonging to client, if any. */
  function LastOfClient(scores: seq<Score>, n: nat, client: int): (r: Option<nat>)
    requires n <= |scores|
    ensures r.Some? ==> r.value < n && scores[r.value].client == client
    ensures r.Some? ==> forall j :: r.value < j < n ==> scores[j].client != client
    ensures r.None? ==> forall j :: 0 <= j < n ==> scores[j].client != client
  {
    if n == 0 then None
    else if scores[n - 1].client == client then Some(n - 1)
    else LastOfClient(scores, n - 1, client)
  }

  /** The menu selection CG_SetScoreSelection hands to Menu_SetFeederSelection. */
  datatype FeederPick = FeederPick(feeder: Feeder, index: int)

  /** A client-info entry as CG_BuildSpectatorString reads it. */
  datatype ClientInfo = ClientInfo(infoValid: bool, team: int, name: string)

  /** Q_strcat into a buffer of size bytes: the result keeps at most size - 1
      characters. */
  function Take(s: string, n: nat): (r: string)
    ensures |r| <= |s| && |r| <= n && r == s[..|r|]
    ensures |s| <= n ==> r == s
  {
    if |s| <= n then s else s[..n]
  }

  /** Truncating after every append is truncating once at the end. */
  lemma TakeAppend(a: string, b: string, n: nat)
    ensures Take(Take(a, n) + b, n) == Take(a + b, n)
  {
    if |a| > n {
      assert (a + b)[..n] == a[..n];
      assert (a[..n] + b)[..n] == a[..n];
    }
  }

  predicate IsSpectator(c: ClientInfo) {
    c.infoValid && c.team == TEAM_SPECTATOR
  }

  /** The entry one spectator contributes to the list. */
  function SpectatorEntry(c: ClientInfo): string
  {
    if IsSpectator(c) then CString(c.name) + "     " else []
  }

  /** The untruncated spectator list of the first n clients. */
  function AllSpectators(clients: seq<ClientInfo>, n: nat): string
    requires n <= |clients|
  {
    if n == 0 then [] else AllSpectators(clients, n - 1) + SpectatorEntry(clients[n - 1])
  }

  /** One client's step of the spectator list. */
  lemma SpectatorStep(clients: seq<ClientInfo>, i: nat, list: string)
    requires i < |clients| && list == Take(AllSpectators(clients, i), MAX_STRING_CHARS - 1)
    ensures IsSpectator(clients[i]) ==>
      Take(list + SpectatorEntry(clients[i]), MAX_STRING_CHARS - 1) == Take(AllSpectators(clients, i + 1), MAX_STRING_CHARS - 1)
    ensures !(IsSpectator(clients[i])) ==>
      list == Take(AllSpectators(clients, i + 1), MAX_STRING_CHARS - 1)
  {
    var all := AllSpectators(clients, i);
    var entry := SpectatorEntry(clients[i]);
    assert AllSpectators(clients, i + 1) == all + entry;
    TakeAppend(all, entry, MAX_STRING_CHARS - 1);
    if entry == [] {
      assert all + entry == all;
      assert list + entry == list;
    }
  }

  /** The loop of CG_BuildSpectatorString: appends each valid spectator's
      entry, truncating after every append as Q_strcat does. */
  method CollectSpectators(clients: seq<ClientInfo>) returns (list: string)
    requires |clients| == MAX_CLIENTS
    ensures list == SpectatorList(clients)
  {
    list := [];
    var i := 0;
    while i < MAX_CLIENTS
      invariant 0 <= i <= MAX_CLIENTS
      invariant list == Take(AllSpectators(clients, i), MAX_STRING_CHARS - 1)
    {
      SpectatorStep(clients, i, list);
      if IsSpectator(clients[i]) {
        list := Take(list + SpectatorEntry(clients[i]), MAX_STRING_CHARS - 1);
      }
      i := i + 1;
    }
  }

  /** The spectator list: every valid spectator's name followed by five spaces,
      cut to fit cg.spectatorList. */
  function SpectatorList(clients: seq<ClientInfo>): (r: string)
    requires |clients| == MAX_CLIENTS
    ensures |r| < MAX_STRING_CHARS && |r| <= |AllSpectators(clients, MAX_CLIENTS)|
    ensures r == AllSpectators(clients, MAX_CLIENTS)[..|r|]
  {
    Take(AllSpectators(clients, MAX_CLIENTS), MAX_STRING_CHARS - 1)
  }

  /** The client game state cg, reduced to the fields these operations use. */
  class ClientGame {
    var scores: seq<Score>
    var numScores: int
    var selectedScore: int
    var spectatorList: string
    var spectatorLen: int
    var spectatorWidth: int

    /** cg.scores has MAX_CLIENTS slots of which the first numScores are used. */
    ghost predicate Valid()
      reads this
    {
      |scores| == MAX_CLIENTS && 0 <= numScores <= MAX_CLIENTS
    }

    constructor ()
      ensures Valid() && numScores == 0 && selectedScore == 0 && spectatorList == []
    {
      scores := seq(MAX_CLIENTS, _ => Score(0, 0));
      numScores := 0;
      selectedScore := 0;
      spectatorList := [];
      spectatorLen := 0;
      spectatorWidth := -1;
    }

    /** CG_FeederCount */
    method FeederCount(feeder: Feeder) returns (count: int)
      requires Valid()
      ensures feeder == RedTeamList ==> count == CountTeam(scores, numScores, TEAM_RED)
      ensures feeder == BlueTeamList ==> count == CountTeam(scores, numScores, TEAM_BLUE)
      ensures feeder == Scoreboard ==> count == numScores
      ensures feeder == OtherFeeder ==> count == 0
    {
      count := 0;
      if feeder == RedTeamList || feeder == BlueTeamList {
        var team := if feeder == RedTeamList then TEAM_RED else TEAM_BLUE;
        var i := 0;
        while i < numScores
          invariant 0 <= i <= numScores
          invariant count == CountTeam(scores, i, team)
        {
          if scores[i].team == team {
            count := count + 1;
          }
          i := i + 1;
        }
      } else if feeder == Scoreboard {
        return numScores;
      }
    }

    /** CG_SetScoreSelection: selects the last score of the local client, then
        (with a menu) picks the feeder row to show: in team games the list of
        the selected score's team at the row count of that team. */
    method SetScoreSelection(clientNum: int, hasMenu: bool, teamGame: bool) returns (pick: Option<FeederPick>)
      requires Valid() && 0 <= selectedScore < MAX_CLIENTS
      modifies this`selectedScore
      ensures 0 <= selectedScore < MAX_CLIENTS
      ensures var last := LastOfClient(scores, numScores, clientNum);
        selectedScore == if last.Some? then last.value else old(selectedScore)
      ensures !hasMenu ==> pick.None?
      ensures hasMenu && !teamGame ==> pick == Some(FeederPick(Scoreboard, selectedScore))
      ensures hasMenu && teamGame && scores[selectedScore].team == TEAM_BLUE ==>
        pick == Some(FeederPick(BlueTeamList, CountTeam(scores, numScores, TEAM_BLUE)))
      ensures hasMenu && teamGame && scores[selectedScore].team != TEAM_BLUE ==>
        pick == Some(FeederPick(RedTeamList, CountTeam(scores, numScores, TEAM_RED)))
    {
      var red, blue := 0, 0;
      var i := 0;
      while i < numScores
        invariant 0 <= i <= numScores && 0 <= selectedScore < MAX_CLIENTS
        invariant red == CountTeam(scores, i, TEAM_RED) && blue == CountTeam(scores, i, TEAM_BLUE)
        invariant var last := LastOfClient(scores, i, clientNum);
          selectedScore == if last.Some? then last.value else old(selectedScore)
      {
        if scores[i].team == TEAM_RED {
          red := red + 1;
        } else if scores[i].team == TEAM_BLUE {
          blue := blue + 1;
        }
        if clientNum == scores[i].client {
          selectedScore := i;
        }
        i := i + 1;
      }
      if !hasMenu {
        return None;
      }
      if teamGame {
        var feeder := RedTeamList;
        i := red;
        if scores[selectedScore].team == TEAM_BLUE {
          feeder := BlueTeamList;
          i := blue;
        }
        pick := Some(FeederPick(feeder, i));
      } else {
        pick := Some(FeederPick(Scoreboard, selectedScore));
      }
    }

    /** CG_InfoFromScoreIndex: in team games, the score of the index-th player
        of the team; otherwise, or when the team has too few players, the raw
        index. Returns the score index and its client. */
    method InfoFromScoreIndex(index: int, team: int, teamGame: bool) returns (scoreIndex: int, client: int)
      requires Valid() && 0 <= index < MAX_CLIENTS
      ensures 0 <= scoreIndex < MAX_CLIENTS && client == scores[scoreIndex].client
      ensures var nth := NthOfTeam(scores, numScores, team, index);
        scoreIndex == if teamGame && nth.Some? then nth.value else index
    {
      if teamGame {
        var count := 0;
        var i := 0;
        while i < numScores
          invariant 0 <= i <= numScores
          invariant count == CountTeam(scores, i, team)
          invariant NthOfTeam(scores, i, team, index).None?
        {
          if scores[i].team == team {
            if count == index {
              assert NthOfTeam(scores, i + 1, team, index) == Some(i);
              NthOfTeamStable(scores, i + 1, numScores, team, index);
              return i, scores[i].client;
            }
            count := count + 1;
          }
          i := i + 1;
        }
      }
      scoreIndex := index;
      client := scores[index].client;
    }

    /** CG_FeederSelection: in team games selects the score of the index-th
        player of the feeder's team, leaving the selection alone when there is
        no such player; otherwise selects the index itself. */
    method FeederSelection(feeder: Feeder, index: int, teamGame: bool)
      requires Valid()
      modifies this`selectedScore
      ensures var nth := NthOfTeam(scores, numScores, FeederTeam(feeder), index);
        selectedScore == if !teamGame then index else if nth.Some? then nth.value else old(selectedScore)
    {
      if teamGame {
        var team := if feeder == RedTeamList then TEAM_RED else TEAM_BLUE;
        var count := 0;
        var i := 0;
        while i < numScores
          invariant 0 <= i <= numScores
          invariant count == CountTeam(scores, i, team)
          invariant var nth := NthOfTeam(scores, i, team, index);
            selectedScore == if nth.Some? then nth.value else old(selectedScore)
        {
          NthOfTeamExists(scores, i, team, index);
          if scores[i].team == team {
            if index == count {
              assert NthOfTeam(scores, i + 1, team, index) == Some(i);
              selectedScore := i;
            }
            count := count + 1;
          }
          i := i + 1;
        }
      } else {
        selectedScore := index;
      }
    }

    /** CG_BuildSpectatorString: rebuilds the list of spectators and asks for
        its width to be measured again only when its length changed. */
    method BuildSpectatorString(clients: seq<ClientInfo>)
      requires |clients| == MAX_CLIENTS
      modifies this`spectatorList, this`spectatorLen, this`spectatorWidth
      ensures spectatorList == SpectatorList(clients)
      ensures spectatorLen == |spectatorList|
      ensures spectatorWidth == if |spectatorList| != old(spectatorLen) then -1 else old(spectatorWidth)
    {
      var list := CollectSpectators(clients);
      spectatorList := list;
      var n := |spectatorList|;
      if n != spectatorLen {
        spectatorLen := n;
        spectatorWidth := -1;
      }
    }
  }

  /** Once found, the index-th player of a team stays found as more scores are
      scanned. */
  lemma {:induction false} NthOfTeamStable(scores: seq<Score>, m: nat, n: nat, team: int, position: int)
    requires m <= n <= |scores| && NthOfTeam(scores, m, team, position).Some?
    ensures NthOfTeam(scores, n, team, position) == NthOfTeam(scores, m, team, position)
    decreases n
  {
    if m < n {
      NthOfTeamStable(scores, m, n - 1, team, position);
    }
  }
}
