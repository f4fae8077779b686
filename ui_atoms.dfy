/** The user interface's small helpers in ui_atoms.c: clamping a setting,
    joining command arguments into a caller's buffer, and dispatching console
    commands through a sorted table. */
module UiAtoms {
  import opened QShared

  /** UI_ClampCvar, on reals (the source works on floats; NaN is not modelled). */
  function ClampCvar(min: real, max: real, value: real): (r: real)
    ensures value < min ==> r == min
    ensures min <= value && value > max ==> r == max
    ensures min <= value <= max ==> r == value
    ensures min <= max ==> min <= r <= max
  {
    if value < min then min else if value > max then max else value
  }

  /** Clamping twice is clamping once, for a well-formed range. */
  lemma ClampIdempotent(min: real, max: real, value: real)
    requires min <= max
    ensures ClampCvar(min, max, ClampCvar(min, max, value)) == ClampCvar(min, max, value)
  {
  }

  // ---------------------------------------------------------------------------
  // UI_ConcatArgs

  /** UI_Argv(i): the i-th argument of the command. */
  function Argv(args: seq<string>, i: nat): string
    requires i < |args|
  {
    args[i]
  }

  /** Command arguments are C strings: none holds a NUL. */
  predicate CStrings(args: seq<string>) {
    forall i :: 0 <= i < |args| ==> '\0' !in args[i]
  }

  /** All arguments from i on, each followed by one space: what UI_ConcatArgs
      would produce given a large enough buffer. */
  function Joined(args: seq<string>, i: nat): string
    decreases |args| - i
  {
    if i >= |args| then [] else Argv(args, i) + " " + Joined(args, i + 1)
  }

  /** At most n characters of s. */
  function Take(s: string, n: int): (r: string)
    ensures |r| <= |s| && r == s[..|r|]
    ensures 0 <= n <= |s| ==> |r| == n
    ensures n > |s| ==> r == s
  {
    if n <= 0 then [] else if n >= |s| then s else s[..n]
  }

  /** The text UI_ConcatArgs leaves in a buffer of len characters, having put
      acc there already and continuing with argument i: each argument is copied
      while fewer than len - 1 characters are written, and a space follows it
      only while fewer than len - 2 are, else the copying stops. */
  function ConcatFrom(args: seq<string>, i: nat, acc: string, len: int): string
    decreases |args| - i
  {
    if i >= |args| then acc
    else
      var copied := acc + Take(Argv(args, i), len - 1 - |acc|);
      if |copied| < len - 2 then ConcatFrom(args, i + 1, copied + " ", len) else copied
  }

  /** What is written never needs more than len - 1 characters. */
  lemma {:induction false} ConcatFromBound(args: seq<string>, i: nat, acc: string, len: int)
    requires |acc| <= len - 1
    ensures |acc| <= |ConcatFrom(args, i, acc, len)| <= len - 1
    decreases |args| - i
  {
    if i < |args| {
      var copied := acc + Take(Argv(args, i), len - 1 - |acc|);
      if |copied| < len - 2 {
        ConcatFromBound(args, i + 1, copied + " ", len);
      }
    }
  }

  /** The output is always a prefix of the arguments joined with spaces. */
  lemma {:induction false} ConcatFromPrefix(args: seq<string>, i: nat, acc: string, len: int)
    ensures var r := ConcatFrom(args, i, acc, len);
      |r| <= |acc + Joined(args, i)| && r == (acc + Joined(args, i))[..|r|]
    decreases |args| - i
  {
    if i < |args| {
      var a := Argv(args, i);
      var copied := acc + Take(a, len - 1 - |acc|);
      if |copied| < len - 2 {
        ConcatFromPrefix(args, i + 1, copied + " ", len);
        PrefixContinue(args, i, acc, len);
      } else {
        PrefixStop(args, i, acc, len);
      }
    }
  }

  /** The step of ConcatFromPrefix where the argument and its space fit. */
  lemma PrefixContinue(args: seq<string>, i: nat, acc: string, len: int)
    requires i < |args|
    requires |acc + Take(Argv(args, i), len - 1 - |acc|)| < len - 2
    ensures acc + Take(Argv(args, i), len - 1 - |acc|) + " " + Joined(args, i + 1) == acc + Joined(args, i)
  {
    var a := Argv(args, i);
    assert Take(a, len - 1 - |acc|) == a;
  }

  /** The step of ConcatFromPrefix where the copying stops. */
  lemma PrefixStop(args: seq<string>, i: nat, acc: string, len: int)
    requires i < |args|
    ensures var copied := acc + Take(Argv(args, i), len - 1 - |acc|);
      |copied| <= |acc + Joined(args, i)| && copied == (acc + Joined(args, i))[..|copied|]
  {
    var a := Argv(args, i);
    var rest := " " + Joined(args, i + 1);
    ConcatAssoc(a, " ", Joined(args, i + 1));
    assert Joined(args, i) == a + rest;
    PrefixExtend(acc, Take(a, len - 1 - |acc|), a, rest);
  }

  /** A prefix of z, after x, is a prefix of x, z and anything following. */
  lemma PrefixExtend(x: string, y: string, z: string, w: string)
    requires |y| <= |z| && y == z[..|y|]
    ensures |x + y| <= |x + (z + w)| && (x + (z + w))[..|x + y|] == x + y
  {
    assert (x + (z + w))[..|x + y|] == x + (z + w)[..|y|];
    assert (z + w)[..|y|] == z[..|y|];
  }

  /** One argument of UI_ConcatArgs: j characters of it were copied, which is
      all of it or up to the last usable character. */
  lemma ConcatStep(args: seq<string>, i: nat, start: string, j: nat, len: int)
    requires i < |args| && j <= |Argv(args, i)| && |start| + j <= len - 1
    requires j == |Argv(args, i)| || |start| + j == len - 1
    ensures var copied := start + Argv(args, i)[..j];
      ConcatFrom(args, i, start, len) ==
        if |copied| < len - 2 then ConcatFrom(args, i + 1, copied + " ", len) else copied
  {
    assert Argv(args, i)[..j] == Take(Argv(args, i), len - 1 - |start|);
  }

  /** When everything fits with room to spare, the output is all of it,
      including the space after the last argument. */
  lemma {:induction false} ConcatFromFits(args: seq<string>, i: nat, acc: string, len: int)
    requires |acc + Joined(args, i)| <= len - 2
    ensures ConcatFrom(args, i, acc, len) == acc + Joined(args, i)
    decreases |args| - i
  {
    if i < |args| {
      var a := Argv(args, i);
      assert acc + Joined(args, i) == acc + a + " " + Joined(args, i + 1);
      assert Take(a, len - 1 - |acc|) == a;
      ConcatFromFits(args, i + 1, acc + a + " ", len);
      assert acc + a + " " + Joined(args, i + 1) == acc + Joined(args, i);
    }
  }

  /** The inner loop of UI_ConcatArgs: copies a into buf from p on while p is
      below len - 1; returns the new p and the number of characters copied. */
  method CopyWhileRoom(a: string, buf: array<char>, p0: int, len: int) returns (p: int, j: int)
    requires 0 <= p0 <= len - 1 && len <= buf.Length
    modifies buf
    ensures 0 <= j <= |a| && p == p0 + j && p <= len - 1
    ensures j == |a| || p == len - 1
    ensures buf[..p] == old(buf[..p0]) + a[..j]
    ensures forall k :: len <= k < buf.Length ==> buf[k] == old(buf[k])
  {
    p, j := p0, 0;
    while j < |a| && p < len - 1
      invariant 0 <= j <= |a| && p == p0 + j && p <= len - 1
      invariant buf[..p] == old(buf[..p0]) + a[..j]
      invariant forall k :: len <= k < buf.Length ==> buf[k] == old(buf[k])
    {
      buf[p] := a[j];
      p := p + 1;
      j := j + 1;
    }
  }

  /** Writes c at p, below len, keeping what precedes it and everything from len on. */
  method PutChar(buf: array<char>, p: int, c: char, len: int)
    requires 0 <= p < len <= buf.Length
    modifies buf
    ensures buf[..p + 1] == old(buf[..p]) + [c]
    ensures forall k :: len <= k < buf.Length ==> buf[k] == old(buf[k])
  {
    buf[p] := c;
    assert buf[..p + 1] == buf[..p] + [c];
  }

  /** UI_ConcatArgs(arg, buf, len): copies the arguments from arg on into the
      first len characters of buf, each followed by a space while there is room,
      and terminates the text with a NUL; a len of 0 or less leaves buf alone. */
  method ConcatArgs(args: seq<string>, arg: nat, buf: array<char>, len: int) returns (written: string)
    requires CStrings(args) && len <= buf.Length
    modifies buf
    ensures len <= 0 ==> written == [] && buf[..] == old(buf[..])
    ensures len > 0 ==>
      && written == ConcatFrom(args, arg, [], len)
      && |written| < len && buf[..|written|] == written && buf[|written|] == '\0'
      && buf[len..] == old(buf[len..])
  {
    if len <= 0 {
      return [];
    }
    var p := 0;
    var i := arg;
    ghost var acc: string := [];
    ghost var target := ConcatFrom(args, arg, [], len);
    while i < |args|
      invariant 0 <= p <= len - 1 && p == |acc|
      invariant buf[..p] == acc
      invariant forall k :: len <= k < buf.Length ==> buf[k] == old(buf[k])
      invariant target == ConcatFrom(args, i, acc, len)
      decreases |args| - i
    {
      var a := args[i];
      ghost var start := acc;
      var j;
      p, j := CopyWhileRoom(a, buf, p, len);
      ConcatStep(args, i, start, j, len);
      acc := start + a[..j];
      if p < len - 2 {
        PutChar(buf, p, ' ', len);
        p := p + 1;
        acc := acc + " ";
      } else {
        break;
      }
      i := i + 1;
    }
    assert target == acc;
    buf[p] := '\0';
    written := buf[..p];
    assert buf[len..] == old(buf[len..]);
  }

  // ---------------------------------------------------------------------------
  // The command table and UI_ConsoleCommand.

  /** Q_stricmp(a, b) < 0 */
  predicate LessIgnoreCase(a: string, b: string) {
    LeqIgnoreCase(a, b) && !EqualsIgnoreCase(a, b)
  }

  lemma LessTransitive(a: string, b: string, c: string)
    requires LessIgnoreCase(a, b) && LessIgnoreCase(b, c)
    ensures LessIgnoreCase(a, c)
  {
    LexLeqTransitive(Upper(a), Upper(b), Upper(c));
    if Upper(a) == Upper(c) {
      LexLeqAntisymmetric(Upper(a), Upper(b));
    }
  }

  /** Q_stricmp is a total order: a key that is neither equal to nor below an
      entry is above it. */
  lemma LessTotal(a: string, b: string)
    ensures LessIgnoreCase(a, b) || EqualsIgnoreCase(a, b) || LessIgnoreCase(b, a)
  {
    LexLeqTotal(Upper(a), Upper(b));
  }

  /** Strictly ascending under Q_stricmp, which bsearch needs. */
  predicate Sorted(t: seq<string>) {
    forall i, j :: 0 <= i < j < |t| ==> LessIgnoreCase(t[i], t[j])
  }

  /** Each entry below the next. */
  predicate AdjacentSorted(t: seq<string>) {
    forall i :: 0 <= i < |t| - 1 ==> LessIgnoreCase(t[i], t[i + 1])
  }

  lemma {:induction false} AdjacentSortedIsSorted(t: seq<string>)
    requires AdjacentSorted(t)
    ensures Sorted(t)
  {
    if |t| > 1 {
      AdjacentSortedIsSorted(t[1..]);
      forall j | 1 < j < |t| ensures LessIgnoreCase(t[0], t[j]) {
        assert LessIgnoreCase(t[1..][0], t[1..][j - 1]);
        LessTransitive(t[0], t[1], t[j]);
      }
      forall i, j | 0 <= i < j < |t| ensures LessIgnoreCase(t[i], t[j]) {
        if i > 0 {
          assert LessIgnoreCase(t[1..][i - 1], t[1..][j - 1]);
        }
      }
    }
  }

  /** The console commands the user interface handles, in table order. */
  const COMMANDS: seq<string> := ["closemenus", "me", "menu", "messagemode", "messagemode2",
                                  "ui_cache", "ui_load", "ui_report"]

  /** Two strings that agree before index k and differ first at k are ordered
      by their characters at k. */
  lemma {:induction false} LexLeqAt(a: string, b: string, k: nat)
    requires k < |a| && k < |b| && a[..k] == b[..k] && a[k] < b[k]
    ensures LexLeq(a, b) && a != b
    decreases k
  {
    if k > 0 {
      assert a[1..][..k - 1] == b[1..][..k - 1];
      LexLeqAt(a[1..], b[1..], k - 1);
      assert a[0] == a[..k][0] == b[..k][0] == b[0];
    }
    assert a[k] != b[k];
  }

  /** A proper prefix comes first. */
  lemma {:induction false} LexLeqPrefix(a: string, b: string)
    requires |a| < |b| && b[..|a|] == a
    ensures LexLeq(a, b) && a != b
    decreases |a|
  {
    if a != [] {
      assert b[1..][..|a| - 1] == a[1..];
      LexLeqPrefix(a[1..], b[1..]);
    }
  }

  /** Two names whose upper-cased forms agree before index k and are ordered at
      k (or, with k == |a|, of which a is a proper prefix) are ordered. */
  lemma LessAt(a: string, b: string, k: nat)
    requires k <= |a| && k < |b|
    requires forall i :: 0 <= i < k ==> UpperChar(a[i]) == UpperChar(b[i])
    requires k == |a| || UpperChar(a[k]) < UpperChar(b[k])
    ensures LessIgnoreCase(a, b)
  {
    var ua, ub := Upper(a), Upper(b);
    if k == |a| {
      assert ub[..|ua|] == ua;
      LexLeqPrefix(ua, ub);
    } else {
      assert ua[..k] == ub[..k];
      LexLeqAt(ua, ub, k);
    }
  }

  /** Each command of the table is below the next. */
  lemma CommandsAdjacent()
    ensures AdjacentSorted(COMMANDS)
  {
    forall i | 0 <= i < |COMMANDS| - 1 ensures LessIgnoreCase(COMMANDS[i], COMMANDS[i + 1]) {
      var a, b := COMMANDS[i], COMMANDS[i + 1];
      var k := if i == 1 || i == 2 then 2 else if i == 3 then 11 else if i >= 5 then 3 else 0;
      LessAt(a, b, k);
    }
  }

  /** The table is in the order bsearch requires. */
  lemma CommandsSorted()
    ensures Sorted(COMMANDS)
  {
    CommandsAdjacent();
    AdjacentSortedIsSorted(COMMANDS);
  }

  /** bsearch with commandComp over a table sorted by it: the index of the
      entry equal to key ignoring case, or None when there is none. */
  method BinarySearch(key: string, table: seq<string>) returns (r: Option<nat>)
    requires Sorted(table)
    ensures r.Some? ==> r.value < |table| && EqualsIgnoreCase(key, table[r.value])
    ensures r.None? <==> forall i :: 0 <= i < |table| ==> !EqualsIgnoreCase(key, table[i])
  {
    var lo, hi := 0, |table|;
    while lo < hi
      invariant 0 <= lo <= hi <= |table|
      invariant forall i :: 0 <= i < lo ==> LessIgnoreCase(table[i], key)
      invariant forall i :: hi <= i < |table| ==> LessIgnoreCase(key, table[i])
    {
      var mid := (lo + hi) / 2;
      if EqualsIgnoreCase(key, table[mid]) {
        return Some(mid);
      }
      LessTotal(key, table[mid]);
      if LessIgnoreCase(key, table[mid]) {
        forall i | mid < i < |table| ensures LessIgnoreCase(key, table[i]) {
          LessTransitive(key, table[mid], table[i]);
        }
        hi := mid;
      } else {
        forall i | 0 <= i < mid ensures LessIgnoreCase(table[i], key) {
          LessTransitive(table[i], table[mid], key);
        }
        lo := mid + 1;
      }
    }
    return None;
  }

  /** The user interface's display context, reduced to its clock. */
  class DisplayContext {
    var realTime: int
    var frameTime: int
    var chatTeam: bool

    constructor ()
      ensures realTime == 0 && frameTime == 0 && !chatTeam
    {
      realTime, frameTime, chatTeam := 0, 0, false;
    }

    /** UI_ConsoleCommand: updates the frame clock and reports whether argv0
        names a command of the table (and which). */
    method ConsoleCommand(argv0: string, now: int) returns (command: Option<nat>)
      modifies this`realTime, this`frameTime
      ensures frameTime == now - old(realTime) && realTime == now
      ensures command.Some? ==> command.value < |COMMANDS| && EqualsIgnoreCase(argv0, COMMANDS[command.value])
      ensures command.None? <==> forall i :: 0 <= i < |COMMANDS| ==> !EqualsIgnoreCase(argv0, COMMANDS[i])
    {
      CommandsSorted();
      command := BinarySearch(argv0, COMMANDS);
      frameTime := now - realTime;
      realTime := now;
    }

    /** UI_MessageMode_f: team chat exactly when the command's twelfth
        character is '2' (the buffer holds the command and its terminator);
        returns the chat menu that is opened. */
    method MessageMode(argv0: string) returns (menu: string)
      requires |argv0| >= 11
      modifies this`chatTeam
      ensures chatTeam <==> |argv0| > 11 && argv0[11] == '2'
      ensures menu == if chatTeam then "say_team" else "say"
    {
      var c := if |argv0| > 11 then argv0[11] else '\0';
      if c == '2' {
        chatTeam := true;
      } else {
        chatTeam := false;
      }
      menu := if chatTeam then "say_team" else "say";
    }
  }

  /** Of the two commands that reach UI_MessageMode_f, messagemode2 opens the
      team chat and messagemode the global one, whatever their case. */
  lemma MessageModeCommands(argv0: string)
    requires EqualsIgnoreCase(argv0, "messagemode") || EqualsIgnoreCase(argv0, "messagemode2")
    ensures |argv0| >= 11
    ensures (|argv0| > 11 && argv0[11] == '2') <==> EqualsIgnoreCase(argv0, "messagemode2")
  {
    assert |Upper(argv0)| == |argv0|;
    if |argv0| > 11 {
      assert Upper(argv0)[11] == UpperChar(argv0[11]);
    }
  }
}
