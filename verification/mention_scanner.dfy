/** The three pattern loops over post text: campaign mentions, user mentions, and the combined pass that
    cuts the text into pieces. */
module MentionScanner {
  import opened Wrappers
  import opened MentionSyntax

  /** A match: where it starts and what it says. */
  datatype Found = Found(pos: nat, mention: Mention)

  datatype Piece = Text(text: string) | Link(mention: Mention)

  // ---- one match ----

  function NameStop(s: string, i: nat): (e: nat)
    requires i <= |s|
    ensures i <= e <= |s| && (forall k :: i <= k < e ==> s[k] != ']') && (e < |s| ==> s[e] == ']')
    decreases |s| - i
  {
    if i == |s| || s[i] == ']' then i else NameStop(s, i + 1)
  }

  function IdStop(s: string, i: nat): (e: nat)
    requires i <= |s|
    ensures i <= e <= |s| && (forall k :: i <= k < e ==> IdChar(s[k])) && (e < |s| ==> !IdChar(s[e]))
    decreases |s| - i
  {
    if i == |s| || !IdChar(s[i]) then i else IdStop(s, i + 1)
  }

  predicate HasAt(s: string, i: nat, t: string) { i + |t| <= |s| && s[i..i + |t|] == t }

  /** The pattern of one kind tried at one position: both repetitions run as far as they can. */
  function TryAt(s: string, i: nat, kind: Kind): Option<Mention> {
    if !HasAt(s, i, [Trigger(kind), '[']) then None
    else
      var e := NameStop(s, i + 2);
      if e == i + 2 || !HasAt(s, e, "](" + Tag(kind)) then None
      else
        var b := e + 2 + |Tag(kind)|;
        var f := IdStop(s, b);
        if f == b || !HasAt(s, f, ")") then None else Some(Mention(kind, s[i + 2..e], s[b..f]))
  }

  /** A successful try, part by part. */
  lemma TryAtParts(s: string, i: nat, kind: Kind)
    requires TryAt(s, i, kind).Some?
    ensures var m := TryAt(s, i, kind).value;
            var e, b, f := NameEnd(i, m), IdStart(i, m), EndOf(i, m) - 1;
            && m.kind == kind && Valid(m) && f < |s|
            && s[i..i + 2] == [Trigger(kind), '['] && s[i + 2..e] == m.name
            && s[e..b] == "](" + Tag(kind) && s[b..f] == m.id && s[f..f + 1] == ")"
  {
    var m := TryAt(s, i, kind).value;
    var e := NameStop(s, i + 2);
    var b := e + 2 + |Tag(kind)|;
    var f := IdStop(s, b);
    assert |m.name| == e - i - 2 && |m.id| == f - b;
    assert NameEnd(i, m) == e && IdStart(i, m) == b && EndOf(i, m) == f + 1;
  }

  /** What is matched is a mention that stands there. */
  lemma TryAtSound(s: string, i: nat, kind: Kind)
    ensures var t := TryAt(s, i, kind); t.Some? ==> t.value.kind == kind && MentionAt(s, i, t.value)
  {
    hide TryAt;
    if TryAt(s, i, kind).Some? {
      var m := TryAt(s, i, kind).value;
      TryAtParts(s, i, kind);
      var e, b, f := NameEnd(i, m), IdStart(i, m), EndOf(i, m) - 1;
      SliceText(s, i, i + 2, e, b, f);
      PrintParts(m);
      assert s[i..f + 1] == Print(m) && EndOf(i, m) == f + 1;
      assert MentionAt(s, i, m);
    }
  }

  lemma SliceText(s: string, i: nat, n: nat, e: nat, b: nat, f: nat)
    requires i <= n <= e <= b <= f < |s|
    ensures s[i..f + 1] == s[i..n] + s[n..e] + s[e..b] + s[b..f] + s[f..f + 1]
  {
    assert s[i..e] == s[i..n] + s[n..e];
    assert s[i..b] == s[i..e] + s[e..b];
    assert s[i..f] == s[i..b] + s[b..f];
    assert s[i..f + 1] == s[i..f] + s[f..f + 1];
  }

  lemma PrintParts(m: Mention)
    ensures Print(m) == [Trigger(m.kind), '['] + m.name + ("](" + Tag(m.kind)) + m.id + ")"
  {
  }

  /** Every mention that stands there is matched: greedy repetition loses nothing. */
  lemma TryAtComplete(s: string, i: nat, m: Mention)
    requires MentionAt(s, i, m)
    ensures TryAt(s, i, m.kind) == Some(m)
  {
    var e, b, f := NameEnd(i, m), IdStart(i, m), EndOf(i, m) - 1;
    Slices(s, i, m);
    Spans(s, i, m);
    hide MentionAt, Print, Valid;
    assert NameStop(s, i + 2) == e;
    assert IdStop(s, b) == f;
  }

  /** A mention that stands in the text, part by part. */
  lemma Slices(s: string, i: nat, m: Mention)
    requires MentionAt(s, i, m)
    ensures var e, b, f := NameEnd(i, m), IdStart(i, m), EndOf(i, m) - 1;
            && f < |s| && e > i + 2 && f > b
            && s[i..i + 2] == [Trigger(m.kind), '['] && s[i + 2..e] == m.name
            && s[e..b] == "](" + Tag(m.kind) && s[b..f] == m.id && s[f..f + 1] == ")"
  {
    var e, b, f := NameEnd(i, m), IdStart(i, m), EndOf(i, m) - 1;
    Spans(s, i, m);
    assert f < |s| && |m.name| > 0 && |m.id| > 0;
    hide Print, Tag, MentionAt, Valid;
    SameText(s, i, i + 2, [Trigger(m.kind), '[']);
    SameText(s, i + 2, e, m.name);
    SameText(s, e, b, "](" + Tag(m.kind));
    SameText(s, b, f, m.id);
    SameText(s, f, f + 1, ")");
  }

  lemma SameText(s: string, a: nat, b: nat, t: string)
    requires a <= b <= |s| && |t| == b - a && forall k :: a <= k < b ==> s[k] == t[k - a]
    ensures s[a..b] == t
  {
  }

  /** Some mention of these kinds stands at `i`. */
  ghost predicate Hit(s: string, i: nat, kinds: set<Kind>) {
    exists m: Mention :: m.kind in kinds && MentionAt(s, i, m)
  }

  /** The alternatives of a pattern, tried in order. */
  function MatchAt(s: string, i: nat, kinds: set<Kind>): Option<Mention> {
    var c := if Campaign in kinds then TryAt(s, i, Campaign) else None;
    if c.Some? then c else if User in kinds then TryAt(s, i, User) else None
  }

  /** A pattern matches at a position exactly when one of its mentions stands there. */
  lemma {:induction false} MatchAtExact(s: string, i: nat, kinds: set<Kind>)
    ensures var r := MatchAt(s, i, kinds);
            && (r.Some? ==> r.value.kind in kinds && MentionAt(s, i, r.value))
            && (r.Some? <==> Hit(s, i, kinds))
  {
    hide MentionAt, TryAt;
    TryAtSound(s, i, Campaign);
    TryAtSound(s, i, User);
    if m: Mention :| m.kind in kinds && MentionAt(s, i, m) {
      TryAtComplete(s, i, m);
      assert m.kind == Campaign || m.kind == User;
    }
  }

  // ---- a whole pass ----

  /** All matches of a pass from `i`: the leftmost one, then the rest from its end. */
  function Scan(s: string, i: nat, kinds: set<Kind>): (fs: seq<Found>)
    ensures forall k :: 0 <= k < |fs| ==> i <= fs[k].pos
    decreases |s| - i
  {
    if i >= |s| then []
    else
      match MatchAt(s, i, kinds)
      case None => Scan(s, i + 1, kinds)
      case Some(m) => [Found(i, m)] + Scan(s, EndOf(i, m), kinds)
  }

  /** Positions without a match can be skipped. */
  lemma {:induction false} ScanSkips(s: string, i: nat, j: nat, kinds: set<Kind>)
    requires i <= j && forall k: nat :: i <= k < j ==> !Hit(s, k, kinds)
    ensures Scan(s, i, kinds) == Scan(s, j, kinds)
    decreases j - i
  {
    hide MatchAt, Hit;
    if i < j {
      ScanSkips(s, i + 1, j, kinds);
      MatchAtExact(s, i, kinds);
    }
  }

  /** The next match of a pass, as a stateful pattern reports it: None when the text is used up. */
  method Exec(s: string, lastIndex: nat, kinds: set<Kind>) returns (r: Option<Found>)
    ensures Scan(s, lastIndex, kinds) ==
              if r.Some? then [r.value] + Scan(s, EndOf(r.value.pos, r.value.mention), kinds) else []
    ensures r.Some? ==> lastIndex <= r.value.pos && MentionAt(s, r.value.pos, r.value.mention) && r.value.mention.kind in kinds
    ensures r.Some? ==> EndOf(r.value.pos, r.value.mention) <= |s|
  {
    hide MatchAt, Print, Valid;
    var i := lastIndex;
    while i < |s|
      invariant lastIndex <= i
      invariant Scan(s, lastIndex, kinds) == Scan(s, i, kinds)
    {
      var m := MatchAt(s, i, kinds);
      MatchAtExact(s, i, kinds);
      if m.Some? {
        return Some(Found(i, m.value));
      }
      i := i + 1;
    }
    return None;
  }

  function Mentions(fs: seq<Found>): seq<Mention> {
    seq(|fs|, k requires 0 <= k < |fs| => fs[k].mention)
  }

  /** One parser loop: every match's id and title. */
  method ParseMentions(content: string, kind: Kind) returns (mentions: seq<Mention>)
    ensures mentions == Mentions(Scan(content, 0, {kind}))
  {
    hide MentionAt, MatchAt, Print, Scan;
    mentions := [];
    ghost var whole, done := Scan(content, 0, {kind}), [];
    var lastIndex: nat := 0;
    var r := Exec(content, lastIndex, {kind});
    while r.Some?
      invariant whole == done + Scan(content, lastIndex, {kind}) && mentions == Mentions(done)
      invariant Scan(content, lastIndex, {kind}) ==
                  if r.Some? then [r.value] + Scan(content, EndOf(r.value.pos, r.value.mention), {kind}) else []
      invariant r.Some? ==> lastIndex <= r.value.pos && EndOf(r.value.pos, r.value.mention) <= |content|
      decreases if r.Some? then 1 + |content| - lastIndex else 0
    {
      mentions := mentions + [r.value.mention];
      done := done + [r.value];
      lastIndex := EndOf(r.value.pos, r.value.mention);
      r := Exec(content, lastIndex, {kind});
    }
  }

  method ParseCampaignMentions(content: string) returns (mentions: seq<Mention>)
    ensures mentions == Mentions(Scan(content, 0, {Campaign}))
  {
    mentions := ParseMentions(content, Campaign);
  }

  method ParseUserMentions(content: string) returns (mentions: seq<Mention>)
    ensures mentions == Mentions(Scan(content, 0, {User}))
  {
    mentions := ParseMentions(content, User);
  }

  // ---- cutting the text ----

  const BOTH: set<Kind> := {Campaign, User}

  function TextPiece(t: string): seq<Piece> { if t == "" then [] else [Text(t)] }

  /** The pieces of `s` from `last`, cut at the matches. */
  function Cut(s: string, last: nat, fs: seq<Found>): seq<Piece>
    decreases |fs|
  {
    if fs == [] then (if last < |s| then TextPiece(s[last..]) else [])
    else
      var f := fs[0];
      (if last <= f.pos <= |s| then TextPiece(s[last..f.pos]) else []) + [Link(f.mention)] +
      Cut(s, EndOf(f.pos, f.mention), fs[1..])
  }

  function Pieces(s: string): seq<Piece> { Cut(s, 0, Scan(s, 0, BOTH)) }

  /** Cutting off the first match. */
  lemma CutFirst(s: string, last: nat, f: Found, rest: seq<Found>)
    requires last <= f.pos <= |s|
    ensures Cut(s, last, [f] + rest) == TextPiece(s[last..f.pos]) + [Link(f.mention)] + Cut(s, EndOf(f.pos, f.mention), rest)
  {
    hide Print;
    assert ([f] + rest)[1..] == rest;
  }

  /** The combined loop: text before each match, the match, and the text after the last one. */
  method RenderContentWithMentions(content: string) returns (parts: seq<Piece>)
    ensures parts == Pieces(content)
  {
    hide MentionAt, MatchAt, Print, Scan, Cut;
    parts := [];
    if content == "" {
      EmptyText();
      return;
    }
    var lastIndex: nat := 0;
    var r := Exec(content, lastIndex, BOTH);
    while r.Some?
      invariant lastIndex <= |content|
      invariant Pieces(content) == parts + Cut(content, lastIndex, Scan(content, lastIndex, BOTH))
      invariant Scan(content, lastIndex, BOTH) ==
                  if r.Some? then [r.value] + Scan(content, EndOf(r.value.pos, r.value.mention), BOTH) else []
      invariant r.Some? ==> lastIndex <= r.value.pos && EndOf(r.value.pos, r.value.mention) <= |content|
      decreases if r.Some? then 1 + |content| - lastIndex else 0
    {
      ghost var before := parts;
      var pos, mention := r.value.pos, r.value.mention;
      CutFirst(content, lastIndex, r.value, Scan(content, EndOf(pos, mention), BOTH));
      if pos > lastIndex {
        parts := parts + [Text(content[lastIndex..pos])];
      }
      parts := parts + [Link(mention)];
      assert parts == before + (TextPiece(content[lastIndex..pos]) + [Link(mention)]);
      lastIndex := EndOf(pos, mention);
      r := Exec(content, lastIndex, BOTH);
    }
    CutRest(content, lastIndex);
    if lastIndex < |content| {
      parts := parts + [Text(content[lastIndex..])];
    }
  }

  lemma EmptyText()
    ensures Pieces("") == []
  {
  }

  lemma CutRest(s: string, last: nat)
    requires last <= |s|
    ensures Cut(s, last, []) == if last < |s| then [Text(s[last..])] else []
  {
  }
}
