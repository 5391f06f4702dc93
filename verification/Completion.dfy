/**
 * Completion of a command name. The command line is extended letter by letter along the first match
 * for as long as the number of matches stays the same, and the last letter is taken back.
 */
module Completion {

  /** The room for matches; the program has no more commands than that. */
  const MAX_MATCHES := 250

  /** The commands among the first `n` that begin with `cmd`, in table order. */
  function Prefixed(names: seq<string>, cmd: string, n: nat): (m: seq<nat>)
    requires n <= |names|
    ensures |m| <= n
    ensures forall k :: 0 <= k < |m| ==> m[k] < n && cmd <= names[m[k]]
  {
    if n == 0 then []
    else if cmd <= names[n - 1] then Prefixed(names, cmd, n - 1) + [n - 1]
    else Prefixed(names, cmd, n - 1)
  }

  function Matches(names: seq<string>, cmd: string): seq<nat> { Prefixed(names, cmd, |names|) }

  lemma {:induction false} PrefixedAll(names: seq<string>, cmd: string, n: nat)
    requires n <= |names|
    ensures forall i :: 0 <= i < n && cmd <= names[i] ==> i in Prefixed(names, cmd, n)
  {
    if n > 0 {
      PrefixedAll(names, cmd, n - 1);
      var before := Prefixed(names, cmd, n - 1);
      assert n - 1 in before + [n - 1] && forall i :: i in before ==> i in before + [n - 1];
    }
  }

  predicate Begins(name: string, cmd: string) { |cmd| <= |name| && name[..|cmd|] == cmd }

  lemma {:induction false} PrefixedAscends(names: seq<string>, cmd: string, n: nat, j: nat, k: nat)
    requires n <= |names| && j < k < |Prefixed(names, cmd, n)|
    ensures Prefixed(names, cmd, n)[j] < Prefixed(names, cmd, n)[k]
  {
    if k < |Prefixed(names, cmd, n - 1)| {
      PrefixedAscends(names, cmd, n - 1, j, k);
    }
  }

  lemma PrefixOrBegins(name: string, cmd: string)
    ensures cmd <= name <==> Begins(name, cmd)
  {
    if |cmd| <= |name| {
      assert cmd <= name <==> name[..|cmd|] == cmd;
    }
  }

  /** The matches are exactly the commands that begin with the line, each once and in table order. */
  lemma MatchesInOrder(names: seq<string>, cmd: string)
    ensures var m := Matches(names, cmd);
            && (forall j :: 0 <= j < |m| ==> m[j] < |names| && Begins(names[m[j]], cmd))
            && (forall i :: 0 <= i < |names| && Begins(names[i], cmd) ==> i in m)
            && (forall j, k :: 0 <= j < k < |m| ==> m[j] < m[k])
  {
    PrefixedAll(names, cmd, |names|);
    forall i | 0 <= i < |names| ensures cmd <= names[i] <==> Begins(names[i], cmd) {
      PrefixOrBegins(names[i], cmd);
    }
    var m := Matches(names, cmd);
    forall j, k | 0 <= j < k < |m| ensures m[j] < m[k] {
      PrefixedAscends(names, cmd, |names|, j, k);
    }
  }

  lemma MatchAt(names: seq<string>, cmd: string, i: nat) returns (a: nat)
    requires i < |names| && cmd <= names[i]
    ensures a < |Matches(names, cmd)| && Matches(names, cmd)[a] == i
  {
    PrefixedAll(names, cmd, |names|);
    a :| 0 <= a < |Matches(names, cmd)| && Matches(names, cmd)[a] == i;
  }

  /** A longer command has no more matches, and if it has as many they are the same. */
  lemma {:induction false} PrefixedShrinks(names: seq<string>, cmd: string, longer: string, n: nat)
    requires n <= |names| && cmd <= longer
    ensures |Prefixed(names, longer, n)| <= |Prefixed(names, cmd, n)|
    ensures |Prefixed(names, longer, n)| == |Prefixed(names, cmd, n)| ==>
              Prefixed(names, longer, n) == Prefixed(names, cmd, n)
    ensures Prefixed(names, cmd, n) != [] && longer <= names[Prefixed(names, cmd, n)[0]] ==>
              Prefixed(names, longer, n) != [] && Prefixed(names, longer, n)[0] == Prefixed(names, cmd, n)[0]
  {
    if n > 0 { PrefixedShrinks(names, cmd, longer, n - 1); }
  }

  /** The longest common prefix of the commands `m`. */
  ghost predicate IsLcp(names: seq<string>, m: seq<nat>, l: string) {
    && (forall k :: 0 <= k < |m| ==> m[k] < |names| && l <= names[m[k]])
    && (forall p: string :: (forall k :: 0 <= k < |m| ==> m[k] < |names| && p <= names[m[k]]) ==> |p| <= |l|)
  }

  lemma PrefixesOfOne(p: string, q: string, name: string)
    requires p <= name && q <= name
    ensures |p| == |q| ==> p == q
    ensures |p| > |q| ==> q + [name[|q|]] <= p
  {
    assert p == name[..|p|] && q == name[..|q|];
    if |p| > |q| {
      assert p[..|q| + 1] == q + [name[|q|]];
    }
  }

  lemma LcpIsUnique(names: seq<string>, m: seq<nat>, l: string, l': string)
    requires m != [] && IsLcp(names, m, l) && IsLcp(names, m, l')
    ensures l == l'
  {
    PrefixesOfOne(l, l', names[m[0]]);
  }

  /** `l` extended by the next letter of the first match. */
  function OneMore(names: seq<string>, m: seq<nat>, l: string): (s: string)
    requires m != [] && m[0] < |names| && |l| < |names[m[0]]|
    ensures |s| == |l| + 1
  { l + [names[m[0]][|l|]] }

  /** `l` with the next letter of the first match is a command. */
  predicate NextIsCommand(names: seq<string>, m: seq<nat>, l: string) {
    m != [] && m[0] < |names| && |l| < |names[m[0]]| && OneMore(names, m, l) in names
  }

  /**
   * What the command line becomes when several commands match: the longest common prefix `l`, except
   * that one letter too many stays if `l` is no command and `l` with that letter is one.
   */
  ghost predicate Completed(names: seq<string>, m: seq<nat>, l: string, cmd: string) {
    && m != [] && IsLcp(names, m, l)
    && if l !in names && NextIsCommand(names, m, l) then cmd == OneMore(names, m, l) else cmd == l
  }

  /** The state of a nested call: the letter just added to `q` is the next one of its first match. */
  ghost predicate Extended(names: seq<string>, q: string, cmd: string) {
    var m := Matches(names, q);
    && |m| > 1 && q !in names && |q| < |names[m[0]]| && cmd == OneMore(names, m, q)
  }

  /** If the letter loses some of the matches, `q` was the longest common prefix. */
  lemma LcpWhenMatchesAreLost(names: seq<string>, q: string, cmd: string)
    requires Extended(names, q, cmd) && |Matches(names, cmd)| != |Matches(names, q)|
    ensures IsLcp(names, Matches(names, q), q)
  {
    var m := Matches(names, q);
    forall p: string | forall k :: 0 <= k < |m| ==> m[k] < |names| && p <= names[m[k]] ensures |p| <= |q| {
      if |p| > |q| {
        PrefixesOfOne(p, q, names[m[0]]);
        LongerCommonPrefix(names, q, cmd, p);
      }
    }
  }

  lemma LongerCommonPrefix(names: seq<string>, q: string, cmd: string, p: string)
    requires q <= cmd <= p
    requires var m := Matches(names, q); forall k :: 0 <= k < |m| ==> p <= names[m[k]]
    ensures Matches(names, cmd) == Matches(names, q)
  {
    var m := Matches(names, q);
    PrefixedAll(names, q, |names|);
    forall i | 0 <= i < |names| && q <= names[i] ensures cmd <= names[i] {
      var k :| 0 <= k < |m| && m[k] == i;
      assert p <= names[m[k]];
    }
    SamePrefixed(names, q, cmd, |names|);
  }

  lemma {:induction false} SamePrefixed(names: seq<string>, q: string, cmd: string, n: nat)
    requires n <= |names| && q <= cmd
    requires forall i :: 0 <= i < |names| && q <= names[i] ==> cmd <= names[i]
    ensures Prefixed(names, q, n) == Prefixed(names, cmd, n)
  {
    if n > 0 { SamePrefixed(names, q, cmd, n - 1); }
  }

  /** A command that equals a common prefix makes it the longest. */
  lemma LcpWhenComplete(names: seq<string>, m: seq<nat>, cmd: string)
    requires cmd in names && m == Matches(names, cmd)
    ensures IsLcp(names, m, cmd)
  {
    var i :| 0 <= i < |names| && names[i] == cmd;
    PrefixedAll(names, cmd, |names|);
    var k :| 0 <= k < |m| && m[k] == i;
    forall p: string | forall k :: 0 <= k < |m| ==> p <= names[m[k]] ensures |p| <= |cmd| {
      assert p <= names[m[k]];
    }
  }

  class Completer {
    const names: seq<string>
    var cmd: string
    var matchedLength: nat
    var matchedCmds: seq<nat>

    ghost predicate Valid()
      reads this
    { |names| <= MAX_MATCHES && |matchedCmds| == MAX_MATCHES }

    constructor (names: seq<string>, cmd: string)
      requires |names| <= MAX_MATCHES
      ensures Valid() && this.names == names && this.cmd == cmd && matchedLength == 0
    {
      this.names, this.cmd := names, cmd;
      matchedLength, matchedCmds := 0, seq(MAX_MATCHES, _ => 0);
    }

    /** The loop over the table; an exact match ends it, counts alone, and resets the length. */
    method Scan() returns (matchedTemp: seq<nat>)
      requires Valid()
      modifies this`matchedLength
      ensures cmd !in names ==> matchedTemp == Matches(names, cmd) && matchedLength == old(matchedLength)
      ensures cmd in names ==>
                |matchedTemp| == 1 && matchedTemp[0] < |names| && names[matchedTemp[0]] == cmd && matchedLength == 0
      ensures |matchedTemp| <= MAX_MATCHES
    {
      matchedTemp := [];
      var idx := 0;
      while idx < |names|
        invariant 0 <= idx <= |names|
        invariant matchedTemp == Prefixed(names, cmd, idx) && matchedLength == old(matchedLength)
        invariant cmd !in names[..idx]
      {
        var name := names[idx];
        if |name| >= |cmd| && name[..|cmd|] == cmd {
          if |name| == |cmd| {
            assert name == cmd && names[idx] in names;
            matchedLength := 0;
            return [idx];
          }
          matchedTemp := matchedTemp + [idx];
        }
        assert cmd <= name <==> |name| >= |cmd| && name[..|cmd|] == cmd;
        idx := idx + 1;
      }
    }

    method StoreMatches(matchedTemp: seq<nat>)
      requires Valid() && |matchedTemp| <= MAX_MATCHES
      modifies this`matchedCmds
      ensures Valid() && matchedTemp <= matchedCmds
    {
      matchedCmds := matchedTemp + matchedCmds[|matchedTemp|..];
    }

    /**
     * One call. Started with `matchedLength` 0 it reports the exact match or all the matches and
     * completes an ambiguous command; started after a letter was added to `q` it goes on from there.
     */
    method GetMatched(ghost q: string) returns (ghost l: string)
      requires Valid()
      requires matchedLength == 0 || (Extended(names, q, cmd) && matchedLength == |Matches(names, q)|)
      modifies this
      ensures Valid()
      ensures old(matchedLength) == 0 && old(cmd) in names ==>
                cmd == old(cmd) && matchedLength == 1
                && matchedCmds[0] < |names| && names[matchedCmds[0]] == old(cmd)
      ensures old(matchedLength) == 0 && old(cmd) !in names ==>
                var m := Matches(names, old(cmd));
                && matchedLength == |m| && m <= matchedCmds
                && (|m| <= 1 ==> cmd == old(cmd))
                && (|m| > 1 ==> Completed(names, m, l, cmd))
                && (|m| > 1 ==> (IsLcp(names, m, cmd) <==> l in names || !NextIsCommand(names, m, l)))
      ensures old(matchedLength) != 0 ==> Completed(names, Matches(names, q), l, cmd)
      decreases if Matches(names, cmd) == [] then 0 else |names[Matches(names, cmd)[0]]| - |cmd|
    {
      l := cmd;
      ghost var start := cmd;
      ghost var m := Matches(names, if matchedLength == 0 then cmd else q);
      ghost var nested := matchedLength != 0;
      if nested {
        PrefixedShrinks(names, q, cmd, |names|);
      }
      var matchedTemp := Scan();
      var cmdMatches := |matchedTemp|;
      var index := |cmd|;
      if cmdMatches > 1 && (matchedLength == cmdMatches || matchedLength == 0) {
        matchedLength := cmdMatches;
        NextLetter(names, cmd);
        cmd := cmd + [names[matchedTemp[0]][index]];
        l := GetMatched(start);
        LongestCommonPrefixExactly(names, Matches(names, start), l, cmd);
        matchedLength := cmdMatches;
        StoreMatches(matchedTemp);
        return;
      }
      StoreMatches(matchedTemp);
      if matchedLength != 0 {
        LcpWhenMatchesAreLost(names, q, cmd);
        l := q;
        cmd := cmd[..index - 1];
      } else if nested {
        l := ExactAfterLetter(names, q, cmd);
      }
      matchedLength := cmdMatches;
    }
  }

  /** An ambiguous command that is no command itself can be extended, and its first match stays first. */
  lemma NextLetter(names: seq<string>, cmd: string)
    requires cmd !in names && |Matches(names, cmd)| > 1
    ensures var m := Matches(names, cmd);
            && |cmd| < |names[m[0]]|
            && Extended(names, cmd, OneMore(names, m, cmd))
            && Matches(names, OneMore(names, m, cmd)) != []
            && Matches(names, OneMore(names, m, cmd))[0] == m[0]
  {
    var m := Matches(names, cmd);
    assert names[m[0]] != cmd;
    PrefixedShrinks(names, cmd, OneMore(names, m, cmd), |names|);
  }

  /** The case in which the added letter makes a command: it is kept, rightly or not. */
  lemma ExactAfterLetter(names: seq<string>, q: string, cmd: string) returns (l: string)
    requires Extended(names, q, cmd) && cmd in names
    ensures Completed(names, Matches(names, q), l, cmd)
  {
    var m := Matches(names, q);
    PrefixedShrinks(names, q, cmd, |names|);
    if |Matches(names, cmd)| == |m| {
      LcpWhenComplete(names, m, cmd);
      l := cmd;
    } else {
      LcpWhenMatchesAreLost(names, q, cmd);
      l := q;
    }
  }

  /** The line becomes the longest common prefix exactly if that is a command or the letter after it makes none. */
  lemma LongestCommonPrefixExactly(names: seq<string>, m: seq<nat>, l: string, cmd: string)
    requires Completed(names, m, l, cmd)
    ensures IsLcp(names, m, cmd) <==> l in names || !NextIsCommand(names, m, l)
  {
    if IsLcp(names, m, cmd) {
      LcpIsUnique(names, m, l, cmd);
    }
  }

  // ---------- Which tables are completed right ----------

  /** Whatever is typed, a line that several commands match becomes their longest common prefix. */
  ghost predicate CompletesAll(names: seq<string>) {
    forall p: string, l: string, cmd: string ::
      p !in names && |Matches(names, p)| > 1 && Completed(names, Matches(names, p), l, cmd) ==>
        IsLcp(names, Matches(names, p), cmd)
  }

  function Stem(c: string): string
    requires c != ""
  { c[..|c| - 1] }

  /**
   * Command `i` is one letter longer than something that is no command, the first command in the
   * table that begins with that begins with command `i`, and command `k` goes on differently.
   */
  predicate Trap(names: seq<string>, i: nat, k: nat) {
    && i < |names| && k < |names| && names[i] != ""
    && var c, q := names[i], Stem(names[i]);
       && q !in names && q <= names[k] && !(c <= names[k])
       && var m := Matches(names, q); m != [] && c <= names[m[0]]
  }

  lemma PrefixOfLonger(c: string, p: string, name: string)
    requires c <= name && p <= name && |c| <= |p|
    ensures c <= p
  {
    assert c == name[..|c|] && p == name[..|p|];
  }

  lemma CommonIsShorter(c: string, p: string, x: string, y: string)
    requires c <= x && p <= x && p <= y && !(c <= y)
    ensures |p| < |c|
  {
    if |c| <= |p| {
      PrefixOfLonger(c, p, x);
    }
  }

  lemma LcpIsLonger(names: seq<string>, m: seq<nat>, l: string, p: string)
    requires m != [] && IsLcp(names, m, l) && forall k :: 0 <= k < |m| ==> m[k] < |names| && p <= names[m[k]]
    ensures p <= l
  {
    PrefixOfLonger(p, l, names[m[0]]);
  }

  /** The longest common prefix of the matches of `p` has the same matches. */
  lemma SameMatches(names: seq<string>, p: string, l: string)
    requires Matches(names, p) != [] && IsLcp(names, Matches(names, p), l)
    ensures Matches(names, l) == Matches(names, p)
  {
    LcpIsLonger(names, Matches(names, p), l, p);
    LongerCommonPrefix(names, p, l, l);
  }

  lemma LongerIsNotCommon(names: seq<string>, m: seq<nat>, l: string, c: string) returns (j: nat)
    requires IsLcp(names, m, l) && |c| > |l|
    ensures j < |m| && m[j] < |names| && !(c <= names[m[j]])
  {
    assert !forall k :: 0 <= k < |m| ==> m[k] < |names| && c <= names[m[k]];
    j :| 0 <= j < |m| && !(m[j] < |names| && c <= names[m[j]]);
  }

  lemma LetterAndStem(names: seq<string>, m: seq<nat>, l: string)
    requires m != [] && m[0] < |names| && l <= names[m[0]] && |l| < |names[m[0]]|
    ensures var c := OneMore(names, m, l); c != "" && Stem(c) == l && c <= names[m[0]]
  {
    var c := OneMore(names, m, l);
    assert c == names[m[0]][..|c|];
  }

  /** A letter too many on a typed line shows a trap in the table. */
  lemma WrongLetterIsTrap(names: seq<string>, p: string, l: string) returns (i: nat, k: nat)
    requires Matches(names, p) != [] && IsLcp(names, Matches(names, p), l)
    requires l !in names && NextIsCommand(names, Matches(names, p), l)
    ensures Trap(names, i, k)
  {
    var m := Matches(names, p);
    var c := OneMore(names, m, l);
    SameMatches(names, p, l);
    LetterAndStem(names, m, l);
    i :| 0 <= i < |names| && names[i] == c;
    var j := LongerIsNotCommon(names, m, l, c);
    k := m[j];
  }

  /** A trap catches the line that is its stem. */
  lemma TrapCatches(names: seq<string>, i: nat, k: nat)
    requires Trap(names, i, k)
    ensures !CompletesAll(names)
  {
    var c, q := names[i], Stem(names[i]);
    TrapCompletes(names, c, q, k);
    Caught(names, q, q, c);
  }

  lemma Caught(names: seq<string>, p: string, l: string, cmd: string)
    requires p !in names && |Matches(names, p)| > 1
    requires Completed(names, Matches(names, p), l, cmd) && !IsLcp(names, Matches(names, p), cmd)
    ensures !CompletesAll(names)
  {}

  lemma TrapCompletes(names: seq<string>, c: string, q: string, k: nat)
    requires c != "" && q == Stem(c) && c in names && q !in names
    requires k < |names| && q <= names[k] && !(c <= names[k])
    requires Matches(names, q) != [] && c <= names[Matches(names, q)[0]]
    ensures |Matches(names, q)| > 1
    ensures Completed(names, Matches(names, q), q, c) && !IsLcp(names, Matches(names, q), c)
  {
    var m := Matches(names, q);
    var a := MatchAt(names, q, k);
    StemIsLcp(names, m, c, a);
    StemIsCompleted(names, m, c);
    assert a != 0;
  }

  lemma StemAndLetter(names: seq<string>, m: seq<nat>, c: string)
    requires c != "" && m != [] && m[0] < |names| && c <= names[m[0]] && c in names
    ensures NextIsCommand(names, m, Stem(c)) && OneMore(names, m, Stem(c)) == c
  {
    assert c == names[m[0]][..|c|];
    assert OneMore(names, m, Stem(c)) == c;
  }

  lemma StemIsCompleted(names: seq<string>, m: seq<nat>, c: string)
    requires c != "" && m != [] && IsLcp(names, m, Stem(c)) && Stem(c) !in names && c in names && c <= names[m[0]]
    ensures Completed(names, m, Stem(c), c) && !IsLcp(names, m, c)
  {
    StemAndLetter(names, m, c);
    if IsLcp(names, m, c) {
      LcpIsUnique(names, m, Stem(c), c);
    }
  }

  lemma StemIsLcp(names: seq<string>, m: seq<nat>, c: string, a: nat)
    requires c != "" && a < |m| && forall j :: 0 <= j < |m| ==> m[j] < |names| && Stem(c) <= names[m[j]]
    requires c <= names[m[0]] && !(c <= names[m[a]])
    ensures IsLcp(names, m, Stem(c))
  {
    forall p: string | forall j :: 0 <= j < |m| ==> m[j] < |names| && p <= names[m[j]] ensures |p| <= |Stem(c)| {
      CommonIsShorter(c, p, names[m[0]], names[m[a]]);
    }
  }

  /**
   * The condition on the table: every typed line is completed to its longest common prefix if and
   * only if the table has no trap.
   */
  lemma CompletesAllExactly(names: seq<string>)
    ensures CompletesAll(names) <==> forall i, k :: !Trap(names, i, k)
  {
    forall i, k | Trap(names, i, k) ensures !CompletesAll(names) {
      TrapCatches(names, i, k);
    }
    if forall i, k :: !Trap(names, i, k) {
      forall p: string, l: string, cmd: string |
        p !in names && |Matches(names, p)| > 1 && Completed(names, Matches(names, p), l, cmd)
        ensures IsLcp(names, Matches(names, p), cmd)
      {
        if l !in names && NextIsCommand(names, Matches(names, p), l) {
          var i, k := WrongLetterIsTrap(names, p, l);
        }
      }
    }
  }

  const TWO := ["abc", "abd"]

  lemma TwoMatches()
    ensures Matches(TWO, "a") == [0, 1]
  {
    assert "a" <= TWO[0] && "a" <= TWO[1];
    assert Prefixed(TWO, "a", 0) == [];
    assert Prefixed(TWO, "a", 1) == [0];
  }

  lemma ShorterOrWhole(p: string, name: string)
    requires p <= name
    ensures |p| < |name| || p == name
  {}

  lemma LcpOfTwo()
    ensures IsLcp(TWO, [0, 1], "ab")
  {
    var m: seq<nat> := [0, 1];
    forall p: string | forall k :: 0 <= k < |m| ==> m[k] < |TWO| && p <= TWO[m[k]] ensures |p| <= 2 {
      assert p <= TWO[m[0]] && p <= TWO[m[1]];
      ShorterOrWhole(p, TWO[0]);
      ShorterOrWhole(p, TWO[1]);
      assert TWO[0][2] != TWO[1][2];
    }
  }

  lemma OneMoreOfTwo()
    ensures OneMore(TWO, [0, 1], "ab") == "abc" && "abc" in TWO && "ab" !in TWO
  {
    assert TWO[0] == "abc";
    assert |"ab"| != |TWO[0]| && |"ab"| != |TWO[1]|;
  }

  /** The condition can fail: with these two commands the line "a" becomes a command of its own. */
  lemma OneLetterTooMany()
    ensures Completed(TWO, Matches(TWO, "a"), "ab", "abc")
  {
    TwoMatches();
    LcpOfTwo();
    OneMoreOfTwo();
  }
}
