/** The passes agree, lose nothing, and undo the printer. */
module MentionTheorems {
  import opened Wrappers
  import opened MentionSyntax
  import opened MentionScanner

  // ---- a pass finds every mention ----

  /** A pattern matches at a position exactly what is typed there, and there is at most one such mention. */
  lemma PatternIsExact(s: string, i: nat, m: Mention)
    ensures MatchAt(s, i, {m.kind}) == Some(m) <==> WrittenAt(s, i, m)
    ensures MatchAt(s, i, {Campaign, User}) == Some(m) <==> WrittenAt(s, i, m)
  {
    MentionIsWritten(s, i, m);
    hide MentionAt, MatchAt, WrittenAt;
    assert m.kind == Campaign || m.kind == User;
    MatchIs(s, i, m, {m.kind});
    MatchIs(s, i, m, {Campaign, User});
  }

  lemma MatchIs(s: string, i: nat, m: Mention, kinds: set<Kind>)
    requires m.kind in kinds
    ensures MatchAt(s, i, kinds) == Some(m) <==> MentionAt(s, i, m)
  {
    hide MentionAt, MatchAt;
    MatchAtExact(s, i, kinds);
    if MentionAt(s, i, m) {
      assert Hit(s, i, kinds);
      MentionUnique(s, i, m, MatchAt(s, i, kinds).value);
    }
  }

  /** Each match is typed where it was found, matches follow one another without overlap, and a mention of
      these kinds typed anywhere from `i` on is one of them or starts inside one. */
  ghost predicate FindsAll(s: string, i: nat, kinds: set<Kind>, fs: seq<Found>) {
    && (forall k :: 0 <= k < |fs| ==> fs[k].pos >= i && fs[k].mention.kind in kinds && WrittenAt(s, fs[k].pos, fs[k].mention))
    && (forall j, k :: 0 <= j < k < |fs| ==> fs[j].pos + |Written(fs[j].mention)| <= fs[k].pos)
    && (forall p: nat, m: Mention :: p >= i && m.kind in kinds && WrittenAt(s, p, m) ==> CoveredBy(fs, p, m))
  }

  predicate CoveredBy(fs: seq<Found>, p: nat, m: Mention) {
    exists k :: 0 <= k < |fs| && fs[k].pos <= p < fs[k].pos + |Written(fs[k].mention)|
                && (p == fs[k].pos ==> fs[k].mention == m)
  }

  lemma FindsMore(s: string, i: nat, kinds: set<Kind>, m: Mention, rest: seq<Found>)
    requires m.kind in kinds && WrittenAt(s, i, m) && FindsAll(s, i + |Written(m)|, kinds, rest)
    ensures FindsAll(s, i, kinds, [Found(i, m)] + rest)
  {
    var fs := [Found(i, m)] + rest;
    hide Written;
    forall p: nat, n: Mention | p >= i && n.kind in kinds && WrittenAt(s, p, n) ensures CoveredBy(fs, p, n) {
      if p < i + |Written(m)| {
        if p == i {
          MentionIsWritten(s, i, m);
          MentionIsWritten(s, i, n);
          MentionUnique(s, i, m, n);
        }
        assert fs[0] == Found(i, m);
      } else {
        assert CoveredBy(rest, p, n);
        var k :| 0 <= k < |rest| && rest[k].pos <= p < rest[k].pos + |Written(rest[k].mention)|
                 && (p == rest[k].pos ==> rest[k].mention == n);
        assert fs[k + 1] == rest[k];
      }
    }
  }

  lemma FindsNothingHere(s: string, i: nat, kinds: set<Kind>, fs: seq<Found>)
    requires FindsAll(s, i + 1, kinds, fs) && forall m: Mention :: m.kind in kinds ==> !WrittenAt(s, i, m)
    ensures FindsAll(s, i, kinds, fs)
  {
  }

  /** The pass misses nothing: what the two parsers and the combined loop return is every mention typed in
      the text, from the left. */
  lemma {:induction false} ScanFindsAll(s: string, i: nat, kinds: set<Kind>)
    ensures FindsAll(s, i, kinds, Scan(s, i, kinds))
    decreases |s| - i
  {
    hide FindsAll, MatchAt, Hit;
    if i >= |s| {
      NothingTyped(s, i, kinds);
    } else {
      MatchAtExact(s, i, kinds);
      match MatchAt(s, i, kinds) {
        case None =>
          ScanFindsAll(s, i + 1, kinds);
          NoMatchNothingTyped(s, i, kinds);
          FindsNothingHere(s, i, kinds, Scan(s, i + 1, kinds));
        case Some(m) =>
          MentionIsWritten(s, i, m);
          PrintIsWritten(m);
          ScanFindsAll(s, EndOf(i, m), kinds);
          FindsMore(s, i, kinds, m, Scan(s, EndOf(i, m), kinds));
      }
    }
  }

  lemma NothingTyped(s: string, i: nat, kinds: set<Kind>)
    requires i >= |s|
    ensures FindsAll(s, i, kinds, [])
  {
    forall p: nat, m: Mention | p >= i ensures !WrittenAt(s, p, m) {
    }
  }

  lemma NoMatchNothingTyped(s: string, i: nat, kinds: set<Kind>)
    requires !Hit(s, i, kinds)
    ensures forall m: Mention :: m.kind in kinds ==> !WrittenAt(s, i, m)
  {
    forall m: Mention | m.kind in kinds ensures !WrittenAt(s, i, m) {
      MentionIsWritten(s, i, m);
    }
  }

  // ---- one combined pass against two separate ones ----

  /** Two lists of matches merged by position. */
  function Merge(a: seq<Found>, b: seq<Found>): seq<Found>
    decreases |a| + |b|
  {
    if a == [] then b
    else if b == [] then a
    else if a[0].pos <= b[0].pos then [a[0]] + Merge(a[1..], b)
    else [b[0]] + Merge(a, b[1..])
  }

  lemma OtherKindSkips(s: string, i: nat, m: Mention, other: Kind)
    requires MentionAt(s, i, m) && other != m.kind
    ensures Scan(s, i, {other}) == Scan(s, EndOf(i, m), {other})
  {
    forall k: nat | i <= k < EndOf(i, m) ensures !Hit(s, k, {other}) {
      if n: Mention :| n.kind in {other} && MentionAt(s, k, n) {
        KindsNeverOverlap(s, i, m, k, n);
      }
    }
    ScanSkips(s, i, EndOf(i, m), {other});
  }

  /** The combined pass finds exactly the position-ordered merge of the two separate passes. */
  lemma {:induction false} CombinedIsMerge(s: string, i: nat)
    ensures Scan(s, i, BOTH) == Merge(Scan(s, i, {Campaign}), Scan(s, i, {User}))
    decreases |s| - i
  {
    if i < |s| {
      MatchAtExact(s, i, BOTH);
      match MatchAt(s, i, BOTH) {
        case None =>
          CombinedIsMerge(s, i + 1);
        case Some(m) =>
          OneKindHits(s, i, m);
          var other := if m.kind == Campaign then User else Campaign;
          OtherKindSkips(s, i, m, other);
          CombinedIsMerge(s, EndOf(i, m));
          var own, rest := Scan(s, i, {m.kind}), Scan(s, EndOf(i, m), {m.kind});
          assert own == [Found(i, m)] + rest;
          MergeFirst(Found(i, m), rest, Scan(s, EndOf(i, m), {other}), m.kind == Campaign);
      }
    }
  }

  /** The first of the two passes that hits agrees with the combined one on what it hits. */
  lemma OneKindHits(s: string, i: nat, m: Mention)
    requires i < |s| && MatchAt(s, i, BOTH) == Some(m)
    ensures MatchAt(s, i, {m.kind}) == Some(m)
  {
    MatchAtExact(s, i, BOTH);
    MatchAtExact(s, i, {m.kind});
    assert Hit(s, i, {m.kind});
    MentionUnique(s, i, m, MatchAt(s, i, {m.kind}).value);
  }

  /** A match that ends before everything in the other list merges first. */
  lemma MergeFirst(f: Found, rest: seq<Found>, others: seq<Found>, left: bool)
    requires forall k :: 0 <= k < |others| ==> f.pos < others[k].pos
    ensures left ==> Merge([f] + rest, others) == [f] + Merge(rest, others)
    ensures !left ==> Merge(others, [f] + rest) == [f] + Merge(others, rest)
  {
    assert ([f] + rest)[1..] == rest;
    MergeEmpty(rest);
    MergeEmpty([f] + rest);
  }

  lemma MergeEmpty(a: seq<Found>)
    ensures Merge(a, []) == a && Merge([], a) == a
  {
  }

  // ---- nothing is lost ----

  function PrintPiece(p: Piece): string {
    match p
    case Text(t) => t
    case Link(m) => Print(m)
  }

  function PrintPieces(ps: seq<Piece>): string {
    if ps == [] then "" else PrintPiece(ps[0]) + PrintPieces(ps[1..])
  }

  lemma PrintAppend(ps: seq<Piece>, qs: seq<Piece>)
    ensures PrintPieces(ps + qs) == PrintPieces(ps) + PrintPieces(qs)
  {
    if ps == [] {
      assert ps + qs == qs;
    } else {
      assert (ps + qs)[1..] == ps[1..] + qs;
      PrintAppend(ps[1..], qs);
    }
  }

  lemma PrintOne(t: string, m: Mention)
    ensures PrintPieces(TextPiece(t)) == t && PrintPieces([Link(m)]) == Print(m)
  {
    hide Print;
    assert PrintPieces([Link(m)]) == Print(m) + PrintPieces([]);
    assert PrintPieces([Text(t)]) == t + PrintPieces([]);
  }

  lemma SplitText(s: string, last: nat, i: nat, e: nat)
    requires last <= i <= e <= |s|
    ensures s[last..] == s[last..i] + s[i..e] + s[e..]
  {
  }

  lemma PrintCut(s: string, last: nat, i: nat, m: Mention, rest: seq<Piece>)
    requires last <= i && MentionAt(s, i, m) && PrintPieces(rest) == s[EndOf(i, m)..]
    ensures PrintPieces(TextPiece(s[last..i]) + [Link(m)] + rest) == s[last..]
  {
    hide Print, Valid, PrintPieces, TextPiece;
    var t, e := TextPiece(s[last..i]), EndOf(i, m);
    PrintAppend(t + [Link(m)], rest);
    PrintAppend(t, [Link(m)]);
    PrintOne(s[last..i], m);
    SplitText(s, last, i, e);
  }

  /** Text pieces and matched substrings put the text together again. */
  lemma {:induction false} CutHit(s: string, last: nat, i: nat, m: Mention)
    requires last <= i < |s| && MatchAt(s, i, BOTH) == Some(m) && MentionAt(s, i, m)
    requires PrintPieces(Cut(s, EndOf(i, m), Scan(s, EndOf(i, m), BOTH))) == s[EndOf(i, m)..]
    ensures PrintPieces(Cut(s, last, Scan(s, i, BOTH))) == s[last..]
  {
    var e := EndOf(i, m);
    assert Scan(s, i, BOTH) == [Found(i, m)] + Scan(s, e, BOTH);
    hide MatchAt, Print, Scan, Valid, PrintPieces, Cut;
    CutFirst(s, last, Found(i, m), Scan(s, e, BOTH));
    PrintCut(s, last, i, m, Cut(s, e, Scan(s, e, BOTH)));
  }

  lemma {:induction false} CutLosesNothing(s: string, last: nat, i: nat)
    requires last <= i <= |s|
    ensures PrintPieces(Cut(s, last, Scan(s, i, BOTH))) == s[last..]
    decreases |s| - i
  {
    hide MatchAt, Print, Valid, PrintPieces, Cut;
    if i < |s| {
      MatchAtExact(s, i, BOTH);
      match MatchAt(s, i, BOTH) {
        case None => CutLosesNothing(s, last, i + 1);
        case Some(m) =>
          CutLosesNothing(s, EndOf(i, m), EndOf(i, m));
          CutHit(s, last, i, m);
      }
    } else {
      RestPrints(s, last, i);
    }
  }

  lemma RestPrints(s: string, last: nat, i: nat)
    requires last <= |s| <= i
    ensures PrintPieces(Cut(s, last, Scan(s, i, BOTH))) == s[last..]
  {
    hide Print, MatchAt;
    assert Scan(s, i, BOTH) == [];
    CutRest(s, last);
    assert PrintPieces([Text(s[last..])]) == s[last..] + PrintPieces([]);
  }

  /** Rendering keeps the text: the pieces of any string print back to it. */
  lemma PiecesPrintBack(s: string)
    ensures PrintPieces(Pieces(s)) == s
  {
    CutLosesNothing(s, 0, 0);
    assert s[0..] == s;
  }

  // ---- what is printed is read back ----

  /** No `![` and no `@[`. */
  predicate Plain(t: string) {
    forall k :: 0 <= k < |t| - 1 ==> !((t[k] == '!' || t[k] == '@') && t[k + 1] == '[')
  }

  predicate CanonicalPiece(p: Piece) {
    match p
    case Text(t) => t != "" && Plain(t)
    case Link(m) => Valid(m)
  }

  /** Well-formed pieces, no two texts side by side. */
  predicate Canonical(ps: seq<Piece>) {
    && (forall k :: 0 <= k < |ps| ==> CanonicalPiece(ps[k]))
    && (forall k :: 0 <= k < |ps| - 1 ==> !(ps[k].Text? && ps[k + 1].Text?))
  }

  /** The matches that printed pieces contain, the print starting at `i`. */
  function FoundIn(ps: seq<Piece>, i: nat): seq<Found> {
    if ps == [] then []
    else (if ps[0].Link? then [Found(i, ps[0].mention)] else []) + FoundIn(ps[1..], i + |PrintPiece(ps[0])|)
  }

  /** Plain text followed by a mention or by nothing contains no match. */
  lemma PlainHasNoHit(s: string, i: nat, t: string)
    requires i + |t| <= |s| && s[i..i + |t|] == t && Plain(t)
    requires i + |t| < |s| ==> s[i + |t|] != '['
    ensures forall k: nat :: i <= k < i + |t| ==> !Hit(s, k, BOTH)
  {
    forall k: nat | i <= k < i + |t| ensures !Hit(s, k, BOTH) {
      if m: Mention :| m.kind in BOTH && MentionAt(s, k, m) {
        Spans(s, k, m);
        assert s[k] == t[k - i];
        if k + 1 < i + |t| {
          assert s[k + 1] == t[k + 1 - i];
        }
      }
    }
  }

  lemma CanonicalTail(ps: seq<Piece>)
    requires Canonical(ps) && ps != []
    ensures Canonical(ps[1..]) && CanonicalPiece(ps[0])
    ensures ps[0].Text? && |ps| > 1 ==> ps[1].Link?
  {
    forall k | 0 <= k < |ps[1..]| - 1 ensures !(ps[1..][k].Text? && ps[1..][k + 1].Text?) {
      assert !(ps[k + 1].Text? && ps[k + 1 + 1].Text?);
    }
    assert |ps| > 1 ==> !(ps[0].Text? && ps[0 + 1].Text?);
  }

  /** The print of these pieces is the rest of the text. */
  predicate StandsAt(s: string, i: nat, ps: seq<Piece>) { i <= |s| && s[i..] == PrintPieces(ps) }

  lemma SplitSuffix(s: string, i: nat, a: string, b: string)
    requires i <= |s| && s[i..] == a + b
    ensures i + |a| <= |s| && s[i..i + |a|] == a && s[i + |a|..] == b
  {
    assert |s| - i == |a| + |b|;
    assert forall k :: 0 <= k < |a| ==> s[i + k] == s[i..][k] == a[k];
    assert forall k :: 0 <= k < |b| ==> s[i + |a| + k] == s[i..][|a| + k] == b[k];
  }

  /** The first piece of a print, and the print of the others after it. */
  lemma SplitPrint(s: string, i: nat, ps: seq<Piece>)
    requires StandsAt(s, i, ps) && ps != []
    ensures var j := i + |PrintPiece(ps[0])|;
            j <= |s| && s[i..j] == PrintPiece(ps[0]) && StandsAt(s, j, ps[1..])
  {
    hide PrintPiece;
    SplitSuffix(s, i, PrintPiece(ps[0]), PrintPieces(ps[1..]));
  }

  lemma TextScan(s: string, i: nat, t: string, rest: seq<Piece>)
    requires i + |t| <= |s| && s[i..i + |t|] == t && Plain(t)
    requires StandsAt(s, i + |t|, rest) && Canonical(rest) && (rest != [] ==> rest[0].Link?)
    ensures Scan(s, i, BOTH) == Scan(s, i + |t|, BOTH)
  {
    var j := i + |t|;
    if j < |s| {
      NextStartsWithTrigger(rest);
      assert s[j] == s[j..][0];
    }
    hide Scan;
    PlainHasNoHit(s, i, t);
    ScanSkips(s, i, j, BOTH);
  }

  lemma LinkScan(s: string, i: nat, m: Mention)
    requires MentionAt(s, i, m)
    ensures Scan(s, i, BOTH) == [Found(i, m)] + Scan(s, EndOf(i, m), BOTH)
  {
    MatchAtExact(s, i, BOTH);
    assert Hit(s, i, BOTH);
    MentionUnique(s, i, m, MatchAt(s, i, BOTH).value);
  }

  /** The matches of a print, first piece first. */
  lemma FoundFirst(ps: seq<Piece>, i: nat)
    requires ps != []
    ensures FoundIn(ps, i) == if ps[0].Link? then [Found(i, ps[0].mention)] + FoundIn(ps[1..], i + |PrintPiece(ps[0])|)
                              else FoundIn(ps[1..], i + |PrintPiece(ps[0])|)
  {
  }

  lemma LinkStands(s: string, i: nat, j: nat, m: Mention)
    requires Valid(m) && i <= j <= |s| && s[i..j] == Print(m)
    ensures MentionAt(s, i, m) && j == EndOf(i, m)
  {
  }

  /** A scan passes over the first piece of a print. */
  lemma ScanFirst(s: string, i: nat, ps: seq<Piece>)
    requires Canonical(ps) && StandsAt(s, i, ps) && ps != []
    ensures Scan(s, i, BOTH) == if ps[0].Link? then [Found(i, ps[0].mention)] + Scan(s, i + |PrintPiece(ps[0])|, BOTH)
                                else Scan(s, i + |PrintPiece(ps[0])|, BOTH)
  {
    hide Print, Plain, Valid, Canonical, Scan, StandsAt, MentionAt, PrintPieces;
    SplitPrint(s, i, ps);
    CanonicalTail(ps);
    match ps[0] {
      case Text(t) => TextScan(s, i, t, ps[1..]);
      case Link(m) =>
        LinkStands(s, i, i + |PrintPiece(ps[0])|, m);
        LinkScan(s, i, m);
    }
  }

  lemma NothingFound(s: string, i: nat)
    requires StandsAt(s, i, [])
    ensures Scan(s, i, BOTH) == FoundIn([], i)
  {
    assert i == |s|;
  }

  lemma {:induction false} ScanOfPrint(s: string, i: nat, ps: seq<Piece>)
    requires Canonical(ps) && StandsAt(s, i, ps)
    ensures Scan(s, i, BOTH) == FoundIn(ps, i)
    decreases |ps|
  {
    hide *;
    if ps == [] {
      NothingFound(s, i);
    } else {
      SplitPrint(s, i, ps);
      CanonicalTail(ps);
      FoundFirst(ps, i);
      ScanFirst(s, i, ps);
      ScanOfPrint(s, i + |PrintPiece(ps[0])|, ps[1..]);
    }
  }

  lemma NextStartsWithTrigger(ps: seq<Piece>)
    requires Canonical(ps) && ps != [] && ps[0].Link?
    ensures PrintPieces(ps) != "" && PrintPieces(ps)[0] in {'!', '@'}
  {
    PrintChars(ps[0].mention);
  }

  lemma {:induction false} CutOfPrint(s: string, i: nat, ps: seq<Piece>)
    requires Canonical(ps) && StandsAt(s, i, ps)
    ensures Cut(s, i, FoundIn(ps, i)) == ps
    decreases |ps|
  {
    hide *;
    if ps == [] {
      NothingToCut(s, i);
    } else {
      var j := i + |PrintPiece(ps[0])|;
      SplitPrint(s, i, ps);
      CanonicalTail(ps);
      CutOfPrint(s, j, ps[1..]);
      CutFirstPiece(s, i, ps);
      assert ps == [ps[0]] + ps[1..];
    }
  }

  lemma CutFirstPiece(s: string, i: nat, ps: seq<Piece>)
    requires Canonical(ps) && StandsAt(s, i, ps) && ps != []
    ensures var j := i + |PrintPiece(ps[0])|;
            Cut(s, i, FoundIn(ps, i)) == [ps[0]] + Cut(s, j, FoundIn(ps[1..], j))
  {
    hide Print, Plain, Canonical, Cut, FoundIn, StandsAt;
    var j, rest := i + |PrintPiece(ps[0])|, ps[1..];
    SplitPrint(s, i, ps);
    CanonicalTail(ps);
    assert ps == [ps[0]] + rest;
    match ps[0] {
      case Link(m) =>
        LinkFound(i, m, rest);
        LinkCut(s, i, m, FoundIn(rest, j));
      case Text(t) =>
        if rest == [] {
          EndOfPrint(s, j);
        }
        TextCut(s, i, j, t, rest);
    }
  }

  lemma EndOfPrint(s: string, i: nat)
    requires StandsAt(s, i, [])
    ensures i == |s|
  {
  }

  lemma NothingToCut(s: string, i: nat)
    requires StandsAt(s, i, [])
    ensures Cut(s, i, FoundIn([], i)) == []
  {
  }

  lemma LinkFound(i: nat, m: Mention, rest: seq<Piece>)
    ensures FoundIn([Link(m)] + rest, i) == [Found(i, m)] + FoundIn(rest, EndOf(i, m))
  {
    hide Print;
    assert ([Link(m)] + rest)[1..] == rest;
  }

  lemma LinkCut(s: string, i: nat, m: Mention, tail: seq<Found>)
    requires i <= |s|
    ensures Cut(s, i, [Found(i, m)] + tail) == [Link(m)] + Cut(s, EndOf(i, m), tail)
  {
    hide Print;
    var fs := [Found(i, m)] + tail;
    assert fs[1..] == tail;
    assert TextPiece(s[i..i]) == [];
  }

  lemma {:induction false} TextCut(s: string, i: nat, j: nat, t: string, rest: seq<Piece>)
    requires i <= j <= |s| && s[i..j] == t != "" && (rest == [] ==> j == |s|) && (rest != [] ==> rest[0].Link?)
    ensures Cut(s, i, FoundIn([Text(t)] + rest, i)) == [Text(t)] + Cut(s, j, FoundIn(rest, j))
  {
    FoundFirst([Text(t)] + rest, i);
    assert ([Text(t)] + rest)[1..] == rest;
    assert FoundIn([Text(t)] + rest, i) == FoundIn(rest, j);
    hide Print;
    if rest == [] {
      assert s[i..] == t;
    } else {
      hide Cut, FoundIn;
      TextThenLink(s, i, j, t, rest);
    }
  }

  lemma TextThenLink(s: string, i: nat, j: nat, t: string, rest: seq<Piece>)
    requires i <= j <= |s| && s[i..j] == t != "" && rest != [] && rest[0].Link?
    ensures Cut(s, i, FoundIn(rest, j)) == [Text(t)] + Cut(s, j, FoundIn(rest, j))
  {
    var m := rest[0].mention;
    var tail := FoundIn(rest[1..], j + |PrintPiece(rest[0])|);
    FoundFirst(rest, j);
    hide FoundIn, Print, Cut;
    CutFirst(s, i, Found(j, m), tail);
    LinkCut(s, j, m, tail);
    Joined(Text(t), Link(m), Cut(s, EndOf(j, m), tail));
  }

  lemma Joined(a: Piece, b: Piece, rest: seq<Piece>)
    ensures [a] + ([b] + rest) == [a] + [b] + rest
  {
  }

  /** Printing canonical pieces and rendering the text gives the same pieces. */
  lemma PrintedPiecesReadBack(ps: seq<Piece>)
    requires Canonical(ps)
    ensures Pieces(PrintPieces(ps)) == ps
  {
    var s := PrintPieces(ps);
    assert s[0..] == s;
    ScanOfPrint(s, 0, ps);
    CutOfPrint(s, 0, ps);
  }

  /** The value of the editor after a suggestion is picked: the text before the trigger, the mention and a
      space, the text after the cursor. */
  function Inserted(before: seq<Piece>, m: Mention, after: seq<Piece>): string {
    PrintPieces(before) + Print(m) + " " + PrintPieces(after)
  }

  /** The pieces after an inserted mention: the space joins a text that follows it. */
  function Spaced(after: seq<Piece>): seq<Piece> {
    if after != [] && after[0].Text? then [Text(" " + after[0].text)] + after[1..] else [Text(" ")] + after
  }

  lemma SpacedCanonical(after: seq<Piece>)
    requires Canonical(after)
    ensures Canonical(Spaced(after)) && PrintPieces(Spaced(after)) == " " + PrintPieces(after)
  {
    var ps := Spaced(after);
    if after != [] && after[0].Text? {
      assert CanonicalPiece(after[0]);
      assert ps[1..] == after[1..];
      forall k | 0 <= k < |ps| - 1 ensures !(ps[k].Text? && ps[k + 1].Text?) {
        assert !(after[k].Text? && after[k + 1].Text?);
      }
    } else {
      assert ps[1..] == after;
      forall k | 0 <= k < |ps| - 1 ensures !(ps[k].Text? && ps[k + 1].Text?) {
        if k > 0 { assert !(after[k - 1].Text? && after[k - 1 + 1].Text?); }
      }
    }
  }

  lemma JoinCanonical(before: seq<Piece>, m: Mention, after: seq<Piece>)
    requires Canonical(before) && Valid(m) && Canonical(after)
    ensures Canonical(before + [Link(m)] + after)
  {
    var ps := before + [Link(m)] + after;
    forall k | 0 <= k < |ps| - 1 ensures !(ps[k].Text? && ps[k + 1].Text?) {
      if k + 1 < |before| {
        assert !(before[k].Text? && before[k + 1].Text?);
      } else if k > |before| {
        assert !(after[k - |before| - 1].Text? && after[k - |before| - 1 + 1].Text?);
      }
    }
  }

  lemma {:induction false} ValidMentionReadsBack(before: seq<Piece>, m: Mention, after: seq<Piece>)
    requires Canonical(before) && Valid(m) && Canonical(after)
    ensures Pieces(Inserted(before, m, after)) == before + [Link(m)] + Spaced(after)
  {
    hide Print, Canonical, Spaced, Pieces, PrintPieces, TextPiece;
    SpacedCanonical(after);
    JoinCanonical(before, m, Spaced(after));
    PrintAppend(before + [Link(m)], Spaced(after));
    PrintAppend(before, [Link(m)]);
    PrintOne("", m);
    SpaceJoins(PrintPieces(before) + Print(m), PrintPieces(after));
    PrintedPiecesReadBack(before + [Link(m)] + Spaced(after));
  }

  /** Every mention is well formed. */
  predicate LinksValid(ps: seq<Piece>) { forall p <- ps :: p.Link? ==> Valid(p.mention) }

  lemma LinksValidAppend(ps: seq<Piece>, qs: seq<Piece>)
    requires LinksValid(ps) && LinksValid(qs)
    ensures LinksValid(ps + qs)
  {
    hide Valid;
  }

  /** Whatever the text, only well-formed mentions are rendered. */
  lemma {:induction false} RenderedLinksValid(s: string, last: nat, i: nat)
    requires last <= i <= |s|
    ensures LinksValid(Cut(s, last, Scan(s, i, BOTH)))
    decreases |s| - i
  {
    if i == |s| {
      assert Scan(s, i, BOTH) == [];
      CutRest(s, last);
    } else {
      MatchAtExact(s, i, BOTH);
      match MatchAt(s, i, BOTH) {
        case None => RenderedLinksValid(s, last, i + 1);
        case Some(m) =>
          var e := EndOf(i, m);
          assert Scan(s, i, BOTH) == [Found(i, m)] + Scan(s, e, BOTH);
          assert Valid(m) && e <= |s|;
          hide MatchAt, Print, Scan, Valid, Cut;
          RenderedLinksValid(s, e, e);
          CutFirst(s, last, Found(i, m), Scan(s, e, BOTH));
          LinksValidAppend(TextPiece(s[last..i]) + [Link(m)], Cut(s, e, Scan(s, e, BOTH)));
      }
    }
  }

  /** A picked suggestion is rendered as exactly that mention at the place where it was inserted, with the
      pieces around it unchanged, if and only if its name is not empty and has no closing bracket and its id
      is not empty and has only letters, digits and hyphens. */
  lemma InsertedMentionReadsBack(before: seq<Piece>, m: Mention, after: seq<Piece>)
    requires Canonical(before) && Canonical(after)
    ensures Pieces(PrintPieces(before) + Written(m) + " " + PrintPieces(after)) == before + [Link(m)] + Spaced(after)
            <==> m.name != "" && (forall c <- m.name :: c != ']') && m.id != ""
                 && forall c <- m.id :: 'a' <= c <= 'z' || 'A' <= c <= 'Z' || '0' <= c <= '9' || c == '-'
  {
    PrintIsWritten(m);
    ValidMeans(m);
    hide Canonical, Print, Valid, Spaced, Cut, Scan, LinksValid, Written, PrintPieces;
    var s := Inserted(before, m, after);
    if Valid(m) {
      ValidMentionReadsBack(before, m, after);
    }
    if Pieces(s) == before + [Link(m)] + Spaced(after) {
      RenderedLinksValid(s, 0, 0);
      LinkInsideValid(before, m, Spaced(after));
    }
  }

  lemma ValidMeans(m: Mention)
    ensures Valid(m) <==> m.name != "" && (forall c <- m.name :: c != ']') && m.id != ""
                          && forall c <- m.id :: 'a' <= c <= 'z' || 'A' <= c <= 'Z' || '0' <= c <= '9' || c == '-'
  {
    assert (forall k :: 0 <= k < |m.id| ==> IdChar(m.id[k])) <==> forall c <- m.id :: IdChar(c);
  }

  lemma LinkInsideValid(before: seq<Piece>, m: Mention, after: seq<Piece>)
    requires LinksValid(before + [Link(m)] + after)
    ensures Valid(m)
  {
    hide Valid;
    var ps := before + [Link(m)] + after;
    assert ps[|before|] == Link(m) && ps[|before|] in ps;
  }

  lemma SpaceJoins(a: string, b: string)
    ensures a + " " + b == a + (" " + b)
  {
  }
}
