/** Campaign and user mentions in post text: what a mention is, and where two of them can lie. */
module MentionSyntax {
  datatype Kind = Campaign | User

  /** `![name](campaign:id)` or `@[name](user:id)`. */
  datatype Mention = Mention(kind: Kind, name: string, id: string)

  function Trigger(kind: Kind): char { if kind.Campaign? then '!' else '@' }

  function Tag(kind: Kind): string { if kind.Campaign? then "campaign:" else "user:" }

  predicate IdChar(c: char) { 'a' <= c <= 'z' || 'A' <= c <= 'Z' || '0' <= c <= '9' || c == '-' }

  predicate Valid(m: Mention) {
    && m.name != "" && ']' !in m.name
    && m.id != "" && forall k :: 0 <= k < |m.id| ==> IdChar(m.id[k])
  }

  /** The text the editor inserts for a mention. */
  function Print(m: Mention): (t: string)
    ensures |t| == |m.name| + |Tag(m.kind)| + |m.id| + 5
  {
    [Trigger(m.kind), '['] + m.name + "](" + Tag(m.kind) + m.id + ")"
  }

  function EndOf(i: nat, m: Mention): nat { i + |Print(m)| }

  /** The text of a valid mention stands at `i`: what the patterns match there. */
  predicate MentionAt(s: string, i: nat, m: Mention) {
    Valid(m) && EndOf(i, m) <= |s| && s[i..EndOf(i, m)] == Print(m)
  }

  /** A mention as it is typed. */
  function Written(m: Mention): string {
    match m.kind
    case Campaign => "![" + m.name + "](campaign:" + m.id + ")"
    case User => "@[" + m.name + "](user:" + m.id + ")"
  }

  /** The two patterns, read off the text: a name without a closing bracket, an id of letters, digits and
      hyphens, neither empty, between the literal parts. */
  predicate WrittenAt(s: string, i: nat, m: Mention) {
    && m.name != "" && (forall c <- m.name :: c != ']')
    && m.id != "" && (forall c <- m.id :: 'a' <= c <= 'z' || 'A' <= c <= 'Z' || '0' <= c <= '9' || c == '-')
    && i + |Written(m)| <= |s| && s[i..i + |Written(m)|] == Written(m)
  }

  lemma PrintIsWritten(m: Mention)
    ensures Print(m) == Written(m)
  {
    if m.kind.Campaign? {
      assert "](" + "campaign:" == "](campaign:";
      assert ['!', '['] == "![";
      Regroup("![", m.name, "](", "campaign:", m.id);
    } else {
      assert "](" + "user:" == "](user:";
      assert ['@', '['] == "@[";
      Regroup("@[", m.name, "](", "user:", m.id);
    }
  }

  lemma Regroup(a: string, b: string, c: string, d: string, e: string)
    ensures a + b + c + d + e + ")" == a + b + (c + d) + e + ")"
  {
  }

  lemma MentionIsWritten(s: string, i: nat, m: Mention)
    ensures MentionAt(s, i, m) <==> WrittenAt(s, i, m)
  {
    PrintIsWritten(m);
    hide Print, Written;
    assert (forall k :: 0 <= k < |m.id| ==> IdChar(m.id[k])) <==> forall c <- m.id :: IdChar(c);
  }

  function NameEnd(i: nat, m: Mention): nat { i + 2 + |m.name| }

  function IdStart(i: nat, m: Mention): nat { NameEnd(i, m) + 2 + |Tag(m.kind)| }

  /** The characters of a printed mention by region. */
  lemma PrintChars(m: Mention)
    ensures var p, e, b := Print(m), NameEnd(0, m), IdStart(0, m);
            && p[0] == Trigger(m.kind) && p[1] == '['
            && (forall k :: 2 <= k < e ==> p[k] == m.name[k - 2])
            && p[e] == ']' && p[e + 1] == '('
            && (forall k :: e + 2 <= k < b ==> p[k] == Tag(m.kind)[k - e - 2])
            && (forall k :: b <= k < b + |m.id| ==> p[k] == m.id[k - b])
            && p[b + |m.id|] == ')' && b + |m.id| + 1 == |p|
  {
  }

  /** A mention read off the text character by character. */
  lemma {:induction false} Spans(s: string, i: nat, m: Mention)
    requires MentionAt(s, i, m)
    ensures s[i] == Trigger(m.kind) && s[i + 1] == '['
    ensures forall k :: i + 2 <= k < NameEnd(i, m) ==> s[k] == m.name[k - i - 2] && s[k] != ']'
    ensures s[NameEnd(i, m)] == ']' && s[NameEnd(i, m) + 1] == '('
    ensures forall k :: NameEnd(i, m) + 2 <= k < IdStart(i, m) ==> s[k] == Tag(m.kind)[k - NameEnd(i, m) - 2]
    ensures forall k :: IdStart(i, m) <= k < EndOf(i, m) - 1 ==> s[k] == m.id[k - IdStart(i, m)] && IdChar(s[k])
    ensures s[EndOf(i, m) - 1] == ')'
  {
    PrintChars(m);
    assert forall k :: i <= k < EndOf(i, m) ==> s[k] == s[i..EndOf(i, m)][k - i] == Print(m)[k - i];
  }

  /** Two mentions whose names start before a common bracket close them at the same place. */
  lemma SameNameEnd(s: string, i: nat, m: Mention, j: nat, n: Mention)
    requires MentionAt(s, i, m) && MentionAt(s, j, n) && i <= j && j + 2 <= NameEnd(i, m)
    ensures NameEnd(j, n) == NameEnd(i, m)
  {
    Spans(s, i, m);
    Spans(s, j, n);
  }

  /** At most one mention stands at a position. */
  lemma MentionUnique(s: string, i: nat, m: Mention, n: Mention)
    requires MentionAt(s, i, m) && MentionAt(s, i, n)
    ensures m == n
  {
    Spans(s, i, m);
    Spans(s, i, n);
    SameNameEnd(s, i, m, i, n);
    assert m.name == s[i + 2..NameEnd(i, m)] == n.name;
    assert m.id == s[IdStart(i, m)..EndOf(i, m) - 1] && n.id == s[IdStart(i, n)..EndOf(i, n) - 1];
  }

  /** Mentions of different kinds never overlap, whatever surrounds them. */
  lemma KindsNeverOverlap(s: string, i: nat, m: Mention, j: nat, n: Mention)
    requires MentionAt(s, i, m) && MentionAt(s, j, n) && m.kind != n.kind && i <= j
    ensures EndOf(i, m) <= j
  {
    Spans(s, i, m);
    Spans(s, j, n);
    if i < j < NameEnd(i, m) {
      SameNameEnd(s, i, m, j, n);
      TagsDiffer(s, NameEnd(i, m) + 2, m.kind, n.kind);
    } else if NameEnd(i, m) + 2 <= j < IdStart(i, m) {
      TagHasNoTrigger(m.kind, j - NameEnd(i, m) - 2);
    }
  }

  /** The two tags differ in their first character. */
  lemma TagsDiffer(s: string, e: nat, a: Kind, b: Kind)
    requires e < |s| && s[e] == Tag(a)[0] && s[e] == Tag(b)[0]
    ensures a == b
  {
  }

  lemma TagHasNoTrigger(kind: Kind, k: nat)
    requires k < |Tag(kind)|
    ensures Tag(kind)[k] != '!' && Tag(kind)[k] != '@'
  {
  }
}
