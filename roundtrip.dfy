/**
 * `makeMentionsMarkup` (src/utils.js:317-322) against the scan (src/utils.js:95-126):
 * the markup written for one mention is read back as exactly that mention, provided the
 * lazy groups cannot stop early inside a substituted value.
 */
module RoundTrip {
  import opened Basics
  import opened Markup
  import opened Matcher
  import opened Scanner

  /** The value substituted for a placeholder. */
  function ValueOf(p: Placeholder, id: string, display: string, mtype: string): string {
    match p
    case Id => id
    case Display => display
    case Type => mtype
  }

  /** The capture groups a template's markup is written with: the values of its placeholders, in order. */
  function Groups(segs: seq<Segment>, id: string, display: string, mtype: string): (g: seq<string>)
    ensures |g| == |Holes(segs)|
  {
    if segs == [] then []
    else (if segs[0].Hole? then [ValueOf(segs[0].p, id, display, mtype)] else []) + Groups(segs[1..], id, display, mtype)
  }

  /**
   * Every placeholder is followed by a non-empty literal whose first character does not
   * occur in the value written for the placeholder, so the lazy group cannot end early.
   */
  predicate Delimited(segs: seq<Segment>, id: string, display: string, mtype: string) {
    segs == [] ||
    ((segs[0].Hole? ==>
        |segs| >= 2 && segs[1].Literal? && segs[1].text != []
        && segs[1].text[0] !in ValueOf(segs[0].p, id, display, mtype))
     && Delimited(segs[1..], id, display, mtype))
  }

  /** A value a lazy group can capture: one or more characters other than line terminators. */
  predicate Capturable(v: string) {
    v != [] && NoLineTerminator(v)
  }

  /** The markup `makeMentionsMarkup` writes is the template filled with the values of its placeholders. */
  lemma {:induction false} FillIsMarkup(segs: seq<Segment>, id: string, display: string, mtype: string)
    ensures Fill(segs, Groups(segs, id, display, mtype)) == MakeMentionsMarkup(segs, id, display, mtype)
  {
    if segs != [] {
      FillIsMarkup(segs[1..], id, display, mtype);
      var g := Groups(segs, id, display, mtype);
      var rest := Groups(segs[1..], id, display, mtype);
      if segs[0].Hole? {
        assert g == [ValueOf(segs[0].p, id, display, mtype)] + rest;
        assert g[1..] == rest;
        assert Fill(segs, g) == g[0] + Fill(segs[1..], rest);
      } else {
        assert g == rest;
        assert Fill(segs, g) == segs[0].text + Fill(segs[1..], rest);
      }
    }
  }

  /** The `k`-th group holds the value of the `k`-th placeholder. */
  lemma {:induction false} GroupAt(segs: seq<Segment>, k: nat, id: string, display: string, mtype: string)
    requires k < |Holes(segs)|
    ensures Groups(segs, id, display, mtype)[k] == ValueOf(Holes(segs)[k], id, display, mtype)
  {
    var g := Groups(segs, id, display, mtype);
    var rest := Groups(segs[1..], id, display, mtype);
    if segs[0].Hole? {
      assert g == [ValueOf(segs[0].p, id, display, mtype)] + rest;
      assert Holes(segs) == [segs[0].p] + Holes(segs[1..]);
      if k > 0 {
        GroupAt(segs[1..], k - 1, id, display, mtype);
      }
    } else {
      assert g == rest;
      assert Holes(segs) == Holes(segs[1..]);
      GroupAt(segs[1..], k, id, display, mtype);
    }
  }

  /** The group a placeholder's rank selects holds that placeholder's value. */
  lemma GroupAtRank(segs: seq<Segment>, p: Placeholder, id: string, display: string, mtype: string)
    requires Has(segs, p)
    ensures Groups(segs, id, display, mtype)[Rank(segs, p)] == ValueOf(p, id, display, mtype)
  {
    GroupAt(segs, Rank(segs, p), id, display, mtype);
  }

  /** With capturable values for the placeholders present, the groups are ones a lazy group accepts. */
  lemma {:induction false} GroupsCapturable(segs: seq<Segment>, id: string, display: string, mtype: string)
    requires Has(segs, Id) ==> Capturable(id)
    requires Has(segs, Display) ==> Capturable(display)
    requires Has(segs, Type) ==> Capturable(mtype)
    ensures GroupsOk(Groups(segs, id, display, mtype))
  {
    if segs != [] {
      GroupsCapturable(segs[1..], id, display, mtype);
      if segs[0].Hole? {
        GroupsCons(ValueOf(segs[0].p, id, display, mtype), Groups(segs[1..], id, display, mtype));
      }
    }
  }

  /**
   * When the template is delimited, the written groups are the only match at `i` whose
   * group lengths are lexicographically at most theirs.
   */
  lemma {:induction false} LeastIsWritten(segs: seq<Segment>, s: string, i: nat, id: string, display: string, mtype: string,
                                         other: seq<string>)
    requires Delimited(segs, id, display, mtype)
    requires IsMatch(segs, s, i, Groups(segs, id, display, mtype)) && IsMatch(segs, s, i, other)
    requires LexLeq(Lengths(other), Lengths(Groups(segs, id, display, mtype)))
    ensures other == Groups(segs, id, display, mtype)
    decreases |segs|, 1
  {
    if segs != [] {
      var g := Groups(segs, id, display, mtype);
      var rest := Groups(segs[1..], id, display, mtype);
      if segs[0].Literal? {
        var l := segs[0].text;
        assert g == rest;
        LiteralMatch(segs, s, i, g);
        LiteralMatch(segs, s, i, other);
        LeastIsWritten(segs[1..], s, i + |l|, id, display, mtype, other);
      } else {
        LeastAtHole(segs, s, i, id, display, mtype, other);
      }
    }
  }

  /** `LeastIsWritten` when the template starts with a placeholder: its group has the written length. */
  lemma LeastAtHole(segs: seq<Segment>, s: string, i: nat, id: string, display: string, mtype: string,
                    other: seq<string>)
    requires segs != [] && segs[0].Hole? && Delimited(segs, id, display, mtype)
    requires IsMatch(segs, s, i, Groups(segs, id, display, mtype)) && IsMatch(segs, s, i, other)
    requires LexLeq(Lengths(other), Lengths(Groups(segs, id, display, mtype)))
    ensures other == Groups(segs, id, display, mtype)
    decreases |segs|, 0
  {
    var g := Groups(segs, id, display, mtype);
    var rest := Groups(segs[1..], id, display, mtype);
    var v := ValueOf(segs[0].p, id, display, mtype);
    assert g == [v] + rest;
    assert g[1..] == rest;
    HoleMatch(segs, s, i, g);
    HoleMatch(segs, s, i, other);
    NotEarly(segs, s, i, v, other);
    LexCons(|other[0]|, Lengths(other[1..]), |v|, Lengths(rest));
    LeastIsWritten(segs[1..], s, i + |v|, id, display, mtype, other[1..]);
    assert other == [other[0]] + other[1..];
  }

  /** A lazy group cannot stop inside `v` when the literal after it starts with a character `v` lacks. */
  lemma NotEarly(segs: seq<Segment>, s: string, i: nat, v: string, other: seq<string>)
    requires |segs| >= 2 && segs[0].Hole? && segs[1].Literal? && segs[1].text != [] && segs[1].text[0] !in v
    requires i + |v| <= |s| && s[i..i + |v|] == v && IsMatch(segs, s, i, other)
    ensures |other[0]| >= |v|
  {
    HoleMatch(segs, s, i, other);
    if |other[0]| < |v| {
      var j := i + |other[0]|;
      LiteralMatch(segs[1..], s, j, other[1..]);
      assert false;
    }
  }

  /** No match of a template that holds a placeholder starts at the very end of the text. */
  lemma NothingAtEnd(t: Template, s: string)
    requires Valid(t)
    ensures FindNext(t, s, |s|).None?
  {
    var p := if Has(t, Id) then Id else Display;
    var r := Rank(t, p);
  }

  /**
   * Scanning the markup `makeMentionsMarkup` writes, with the default transform, reports an
   * empty text run and then exactly one mention carrying the values written. A template
   * without `__id__` reads the display for the id and one without `__display__` the id for
   * the display, as `getPositionOfCapturingGroup` arranges; one without `__type__` gives no type.
   */
  lemma MarkupRoundTrip(t: Template, id: string, display: string, mtype: string)
    requires Valid(t) && Delimited(t, id, display, mtype)
    requires Has(t, Id) ==> Capturable(id)
    requires Has(t, Display) ==> Capturable(display)
    requires Has(t, Type) ==> Capturable(mtype)
    ensures var s := MakeMentionsMarkup(t, id, display, mtype);
      Scan(t, s, Identity()) ==
        [TextRun("", 0, 0),
         MentionMatch(s, 0, 0, if Has(t, Id) then id else display, if Has(t, Display) then display else id,
                      if Has(t, Type) then Some(mtype) else None, 0)]
  {
    var s := MakeMentionsMarkup(t, id, display, mtype);
    var g := Groups(t, id, display, mtype);
    var m := Match(0, |s|, g);
    var l := GroupLayout(t);
    WrittenIsFound(t, id, display, mtype);
    OneHit(t, s, Identity(), m);
    GroupAtRank(t, if Has(t, Id) then Id else Display, id, display, mtype);
    GroupAtRank(t, if Has(t, Display) then Display else Id, id, display, mtype);
    if Has(t, Type) {
      GroupAtRank(t, Type, id, display, mtype);
    }
    var me := MatchEvents(s, l, Identity(), m, 0, 0);
    assert me[1].id == g[l.idPos];
    assert me[1].display == g[l.displayPos];
    assert s[0..0] == "" && s[0..|s|] == s;
  }

  /** When the first match covers the whole value, the scan is that match's two callbacks. */
  lemma OneHit(t: Template, s: string, tf: Transform, m: Match)
    requires Valid(t) && FindNext(t, s, 0) == Some(m) && m.index == 0 && m.end == |s|
    ensures Fits(GroupLayout(t), |m.groups|)
    ensures Scan(t, s, tf) == MatchEvents(s, GroupLayout(t), tf, m, 0, 0)
  {
    var l := GroupLayout(t);
    NothingAtEnd(t, s);
    ExecsStep(t, s, 0);
    assert Execs(t, s, 0) == [m];
    assert [m][1..] == [];
    var me := MatchEvents(s, l, tf, m, 0, 0);
    assert Scan(t, s, tf) == me + EventsFrom(s, l, tf, [], |s|, me[1].plainIndex + |me[1].display|);
  }

  /** The first `regex.exec` on the written markup matches all of it, with the written groups. */
  lemma WrittenIsFound(t: Template, id: string, display: string, mtype: string)
    requires Valid(t) && Delimited(t, id, display, mtype)
    requires Has(t, Id) ==> Capturable(id)
    requires Has(t, Display) ==> Capturable(display)
    requires Has(t, Type) ==> Capturable(mtype)
    ensures var s := MakeMentionsMarkup(t, id, display, mtype);
      FindNext(t, s, 0) == Some(Match(0, |s|, Groups(t, id, display, mtype)))
  {
    var s := MakeMentionsMarkup(t, id, display, mtype);
    var g := Groups(t, id, display, mtype);
    FillIsMarkup(t, id, display, mtype);
    GroupsCapturable(t, id, display, mtype);
    assert s[0..|s|] == s;
    assert IsMatch(t, s, 0, g);
    MatchLeast(t, s, 0, g);
    MatchSound(t, s, 0);
    LeastIsWritten(t, s, 0, id, display, mtype, MatchFrom(t, s, 0).value.groups);
  }
}
