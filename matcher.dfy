/**
 * The matching rule of the global regular expression that `markupToRegex` builds
 * (src/utils.js:21-31): every literal character is matched as itself and every
 * placeholder becomes the lazy group `(.+?)`, one or more characters other than line
 * terminators. `regex.exec` with the `g` flag reports the leftmost start at or after
 * `lastIndex`; among the matches at that start, backtracking over lazy groups picks
 * the one whose group lengths, in order, are lexicographically least.
 */
module Matcher {
  import opened Basics
  import opened Markup

  /** What remains of a match once its start is fixed: where it ends and what the groups hold. */
  datatype Tail = Tail(end: nat, groups: seq<string>)

  /** One result of `regex.exec`: `match.index`, `regex.lastIndex` and the groups. */
  datatype Match = Match(index: nat, end: nat, groups: seq<string>)

  /** The text `segs` stands for when its groups hold `groups`, in order. */
  function Fill(segs: seq<Segment>, groups: seq<string>): string
    requires |groups| == |Holes(segs)|
  {
    if segs == [] then ""
    else match segs[0]
      case Literal(l) => l + Fill(segs[1..], groups)
      case Hole(_) => groups[0] + Fill(segs[1..], groups[1..])
  }

  /** Each group is one or more characters other than line terminators. */
  predicate GroupsOk(groups: seq<string>) {
    forall k :: 0 <= k < |groups| ==> groups[k] != [] && NoLineTerminator(groups[k])
  }

  /** `groups` is one way for `segs` to match `s` starting at `i`. */
  predicate IsMatch(segs: seq<Segment>, s: string, i: nat, groups: seq<string>) {
    |groups| == |Holes(segs)| && GroupsOk(groups) && i <= |s|
    && i + |Fill(segs, groups)| <= |s| && s[i..i + |Fill(segs, groups)|] == Fill(segs, groups)
  }

  /** The lengths of the groups, the key by which lazy matching orders candidate matches. */
  function Lengths(groups: seq<string>): (r: seq<nat>)
    ensures |r| == |groups|
  {
    if groups == [] then [] else [|groups[0]|] + Lengths(groups[1..])
  }

  predicate LexLeq(a: seq<nat>, b: seq<nat>)
    requires |a| == |b|
  {
    a == [] || a[0] < b[0] || (a[0] == b[0] && LexLeq(a[1..], b[1..]))
  }

  /** The backtracking match of `segs` at `i`: the first group length that lets the rest match wins. */
  function MatchFrom(segs: seq<Segment>, s: string, i: nat): (r: Option<Tail>)
    requires i <= |s|
    ensures r.Some? ==> i <= r.value.end <= |s| && |r.value.groups| == |Holes(segs)|
    ensures r.Some? && Holes(segs) != [] ==> i < r.value.end
    decreases |segs|, |s| - i + 1, 1
  {
    if segs == [] then Some(Tail(i, []))
    else match segs[0]
      case Literal(l) =>
        if i + |l| <= |s| && s[i..i + |l|] == l then MatchFrom(segs[1..], s, i + |l|) else None
      case Hole(_) => TryLength(segs, s, i, 1)
  }

  /** The lazy group at the head of `segs`, trying lengths `k`, `k + 1`, ... */
  function TryLength(segs: seq<Segment>, s: string, i: nat, k: nat): (r: Option<Tail>)
    requires segs != [] && segs[0].Hole? && i <= |s| && 1 <= k <= |s| - i + 1
    ensures r.Some? ==> i + k <= r.value.end <= |s| && |r.value.groups| == |Holes(segs)|
    ensures r.Some? ==> |r.value.groups[0]| >= k
    decreases |segs|, |s| - i - k + 1, 0
  {
    if i + k > |s| || IsLineTerminator(s[i + k - 1]) then None
    else match MatchFrom(segs[1..], s, i + k)
      case Some(rest) => Some(Tail(rest.end, [s[i..i + k]] + rest.groups))
      case None => TryLength(segs, s, i, k + 1)
  }

  /** `regex.exec(s)` with `lastIndex == from`: the leftmost match starting at or after `from`. */
  function FindNext(segs: seq<Segment>, s: string, from: nat): (r: Option<Match>)
    requires from <= |s|
    ensures r.Some? ==> from <= r.value.index <= r.value.end <= |s| && |r.value.groups| == |Holes(segs)|
    ensures r.Some? && Holes(segs) != [] ==> r.value.index < r.value.end
    decreases |s| - from
  {
    match MatchFrom(segs, s, from)
    case Some(tl) => Some(Match(from, tl.end, tl.groups))
    case None => if from < |s| then FindNext(segs, s, from + 1) else None
  }

  /**
   * What `FindNext` reports is the backtracking match at the first position, at or after
   * `from`, where there is one; when it reports nothing, there is none.
   */
  lemma {:induction false} FindNextFirst(segs: seq<Segment>, s: string, from: nat)
    requires from <= |s|
    ensures var r := FindNext(segs, s, from);
      r.Some? ==> MatchFrom(segs, s, r.value.index) == Some(Tail(r.value.end, r.value.groups))
    ensures var r := FindNext(segs, s, from);
      forall j :: from <= j <= |s| && (r.None? || j < r.value.index) ==> MatchFrom(segs, s, j).None?
    decreases |s| - from
  {
    if MatchFrom(segs, s, from).None? && from < |s| {
      FindNextFirst(segs, s, from + 1);
    }
  }

  /** What `MatchFrom` reports at `i`, if anything, is a match that ends right after the filled template. */
  predicate SoundAt(segs: seq<Segment>, s: string, i: nat)
    requires i <= |s|
  {
    var r := MatchFrom(segs, s, i);
    r.Some? ==> IsMatch(segs, s, i, r.value.groups) && r.value.end == i + |Fill(segs, r.value.groups)|
  }

  /** Soundness: what `MatchFrom` reports is a match, and it ends right after the filled template. */
  lemma {:induction false} MatchSound(segs: seq<Segment>, s: string, i: nat)
    requires i <= |s|
    ensures SoundAt(segs, s, i)
    decreases |segs|, |s| - i + 1, 1
  {
    if segs != [] {
      if segs[0].Literal? {
        var l := segs[0].text;
        if i + |l| <= |s| && s[i..i + |l|] == l {
          MatchSound(segs[1..], s, i + |l|);
          LiteralSound(segs, s, i);
        }
      } else {
        assert MatchFrom(segs, s, i) == TryLength(segs, s, i, 1);
        TrySound(segs, s, i, 1);
      }
    }
  }

  /** A literal found at `i`, followed by a sound match of the rest, is a sound match of the whole. */
  lemma LiteralSound(segs: seq<Segment>, s: string, i: nat)
    requires segs != [] && segs[0].Literal?
    requires i + |segs[0].text| <= |s| && s[i..i + |segs[0].text|] == segs[0].text
    requires SoundAt(segs[1..], s, i + |segs[0].text|)
    ensures SoundAt(segs, s, i)
  {
    var r := MatchFrom(segs[1..], s, i + |segs[0].text|);
    assert MatchFrom(segs, s, i) == r;
    if r.Some? {
      LiteralThen(segs, s, i, r.value.groups);
    }
  }

  /** A literal found at `i`, followed by a match of the rest, is a match of the whole. */
  lemma LiteralThen(segs: seq<Segment>, s: string, i: nat, groups: seq<string>)
    requires segs != [] && segs[0].Literal?
    requires i + |segs[0].text| <= |s| && s[i..i + |segs[0].text|] == segs[0].text
    requires IsMatch(segs[1..], s, i + |segs[0].text|, groups)
    ensures IsMatch(segs, s, i, groups)
    ensures |Fill(segs, groups)| == |segs[0].text| + |Fill(segs[1..], groups)|
  {
    var l := segs[0].text;
    var f := Fill(segs[1..], groups);
    assert Holes(segs) == Holes(segs[1..]);
    assert Fill(segs, groups) == l + f;
    Adjacent(s, i, l, f);
  }

  lemma {:induction false} TrySound(segs: seq<Segment>, s: string, i: nat, k: nat)
    requires segs != [] && segs[0].Hole? && i <= |s| && 1 <= k <= |s| - i + 1
    requires forall j :: i <= j < i + k - 1 ==> !IsLineTerminator(s[j])
    ensures var r := TryLength(segs, s, i, k);
      r.Some? ==> IsMatch(segs, s, i, r.value.groups) && r.value.end == i + |Fill(segs, r.value.groups)|
    decreases |segs|, |s| - i - k + 1, 0
  {
    if !(i + k > |s| || IsLineTerminator(s[i + k - 1])) {
      var r := MatchFrom(segs[1..], s, i + k);
      if r.Some? {
        MatchSound(segs[1..], s, i + k);
        HoleSound(segs, s, i, k, r.value.groups);
      } else {
        TrySound(segs, s, i, k + 1);
      }
    }
  }

  /** A group of `k` characters other than line terminators, followed by a match of the rest, is a match of the whole. */
  lemma HoleSound(segs: seq<Segment>, s: string, i: nat, k: nat, groups: seq<string>)
    requires segs != [] && segs[0].Hole? && i + k <= |s| && 1 <= k
    requires forall j :: i <= j < i + k ==> !IsLineTerminator(s[j])
    requires IsMatch(segs[1..], s, i + k, groups)
    ensures IsMatch(segs, s, i, [s[i..i + k]] + groups)
    ensures |Fill(segs, [s[i..i + k]] + groups)| == k + |Fill(segs[1..], groups)|
  {
    var g0 := s[i..i + k];
    var g := [g0] + groups;
    var f := Fill(segs[1..], groups);
    assert g[1..] == groups;
    assert Fill(segs, g) == g0 + f;
    Adjacent(s, i, g0, f);
    assert NoLineTerminator(g0) by {
      forall c | 0 <= c < k ensures !IsLineTerminator(g0[c]) { assert g0[c] == s[i + c]; }
    }
    GroupsCons(g0, groups);
  }

  /** Two pieces found one after the other form their concatenation. */
  lemma Adjacent(s: string, i: nat, x: string, y: string)
    requires i + |x| + |y| <= |s| && s[i..i + |x|] == x && s[i + |x|..i + |x| + |y|] == y
    ensures s[i..i + |x| + |y|] == x + y
  {
    assert s[i..i + |x| + |y|] == s[i..i + |x|] + s[i + |x|..i + |x| + |y|];
  }

  lemma GroupsCons(g0: string, groups: seq<string>)
    requires g0 != [] && NoLineTerminator(g0) && GroupsOk(groups)
    ensures GroupsOk([g0] + groups)
  {
    var g := [g0] + groups;
    forall c | 0 <= c < |g| ensures g[c] != [] && NoLineTerminator(g[c]) {
      if c > 0 { assert g[c] == groups[c - 1]; }
    }
  }

  /**
   * Completeness and laziness: whenever `segs` can match at `i` at all, `MatchFrom`
   * finds a match there, and its group lengths are lexicographically least.
   */
  lemma {:induction false} MatchLeast(segs: seq<Segment>, s: string, i: nat, groups: seq<string>)
    requires IsMatch(segs, s, i, groups)
    ensures MatchFrom(segs, s, i).Some?
    ensures LexLeq(Lengths(MatchFrom(segs, s, i).value.groups), Lengths(groups))
    decreases |segs|, |s| - i + 1, 1
  {
    if segs != [] {
      match segs[0]
      case Literal(l) =>
        LiteralMatch(segs, s, i, groups);
        MatchLeast(segs[1..], s, i + |l|, groups);
      case Hole(_) =>
        TryLeast(segs, s, i, 1, groups);
    }
  }

  /** A match whose template starts with a literal starts with that literal and continues with the rest. */
  lemma LiteralMatch(segs: seq<Segment>, s: string, i: nat, groups: seq<string>)
    requires segs != [] && segs[0].Literal? && IsMatch(segs, s, i, groups)
    ensures i + |segs[0].text| <= |s| && s[i..i + |segs[0].text|] == segs[0].text
    ensures IsMatch(segs[1..], s, i + |segs[0].text|, groups)
  {
    var l := segs[0].text;
    var f := Fill(segs[1..], groups);
    assert Fill(segs, groups) == l + f;
    var x := s[i..i + |l| + |f|];
    assert x == l + f;
    assert s[i..i + |l|] == x[..|l|] == l;
    assert s[i + |l|..i + |l| + |f|] == x[|l|..] == f;
  }

  lemma {:induction false} TryLeast(segs: seq<Segment>, s: string, i: nat, k: nat, groups: seq<string>)
    requires segs != [] && segs[0].Hole? && IsMatch(segs, s, i, groups)
    requires 1 <= k <= |groups[0]|
    ensures i + |groups[0]| <= |s|
    ensures TryLength(segs, s, i, k).Some?
    ensures LexLeq(Lengths(TryLength(segs, s, i, k).value.groups), Lengths(groups))
    decreases |segs|, |s| - i - k + 1, 0
  {
    var n := |groups[0]|;
    HoleMatch(segs, s, i, groups);
    assert s[i + k - 1] == groups[0][k - 1];
    var r := MatchFrom(segs[1..], s, i + k);
    if k == n {
      MatchLeast(segs[1..], s, i + n, groups[1..]);
      LexCons(k, Lengths(r.value.groups), n, Lengths(groups[1..]));
      LengthsCons(s[i..i + k], r.value.groups);
    } else if r.Some? {
      LexCons(k, Lengths(r.value.groups), n, Lengths(groups[1..]));
      LengthsCons(s[i..i + k], r.value.groups);
    } else {
      TryLeast(segs, s, i, k + 1, groups);
    }
  }

  lemma LengthsCons(g0: string, groups: seq<string>)
    ensures Lengths([g0] + groups) == [|g0|] + Lengths(groups)
  {
    assert ([g0] + groups)[1..] == groups;
  }

  /** Lexicographic order on sequences that start with one element each. */
  lemma LexCons(x: nat, a: seq<nat>, y: nat, b: seq<nat>)
    requires |a| == |b|
    ensures LexLeq([x] + a, [y] + b) <==> x < y || (x == y && LexLeq(a, b))
  {
    assert ([x] + a)[1..] == a;
    assert ([y] + b)[1..] == b;
  }

  /** A match whose template starts with a placeholder starts with its group and continues with the rest. */
  lemma HoleMatch(segs: seq<Segment>, s: string, i: nat, groups: seq<string>)
    requires segs != [] && segs[0].Hole? && IsMatch(segs, s, i, groups)
    ensures i + |groups[0]| <= |s| && s[i..i + |groups[0]|] == groups[0]
    ensures IsMatch(segs[1..], s, i + |groups[0]|, groups[1..])
    ensures Lengths(groups) == [|groups[0]|] + Lengths(groups[1..])
    ensures forall j :: i <= j < i + |groups[0]| ==> s[j] == groups[0][j - i]
  {
    var n := |groups[0]|;
    var f := Fill(segs[1..], groups[1..]);
    assert Fill(segs, groups) == groups[0] + f;
    var x := s[i..i + n + |f|];
    assert x == groups[0] + f;
    assert s[i..i + n] == x[..n] == groups[0];
    assert s[i + n..i + n + |f|] == x[n..] == f;
    assert GroupsOk(groups[1..]) by {
      forall c | 0 <= c < |groups[1..]| ensures groups[1..][c] != [] && NoLineTerminator(groups[1..][c]) {
        assert groups[1..][c] == groups[c + 1];
      }
    }
  }

  /** `exec` reports the leftmost match: no match of any kind starts between `from` and it. */
  lemma FindNextLeftmost(segs: seq<Segment>, s: string, from: nat)
    requires from <= |s|
    ensures var r := FindNext(segs, s, from);
      forall j, groups :: from <= j <= |s| && (r.None? || j < r.value.index) ==> !IsMatch(segs, s, j, groups)
  {
    var r := FindNext(segs, s, from);
    FindNextFirst(segs, s, from);
    forall j, groups | from <= j <= |s| && (r.None? || j < r.value.index)
      ensures !IsMatch(segs, s, j, groups)
    {
      if IsMatch(segs, s, j, groups) {
        MatchLeast(segs, s, j, groups);
      }
    }
  }
}
