/**
 Property paths such as `summary.runtime.connectionState`: the dotted text and
 the components that repeated splitting at the first dot takes out of it.
 */
module DottedPaths {

  datatype Path = One(name: string) | More(head: string, rest: Path)

  /** No component contains a dot. */
  predicate Plain(p: Path)
  {
    match p
    case One(name) => '.' !in name
    case More(head, rest) => '.' !in head && Plain(rest)
  }

  /** Everything before the first dot. */
  function Head(text: string): (h: string)
    ensures '.' !in h && h <= text
    ensures '.' !in text ==> h == text
    ensures '.' in text ==> |h| < |text| && text[|h|] == '.'
  {
    if text == [] || text[0] == '.' then [] else [text[0]] + Head(text[1..])
  }

  /** The text split at its first dot, then the remainder again, to the end. */
  function Parse(text: string): (p: Path)
    ensures Plain(p)
    decreases |text|
  {
    if '.' in text then More(Head(text), Parse(text[|Head(text)| + 1..])) else One(text)
  }

  function Print(p: Path): string
  {
    match p
    case One(name) => name
    case More(head, rest) => head + "." + Print(rest)
  }

  lemma {:induction false} PrintParse(text: string)
    ensures Print(Parse(text)) == text
    decreases |text|
  {
    if '.' in text {
      PrintParse(text[|Head(text)| + 1..]);
    }
  }

  lemma {:induction false} HeadOfJoined(head: string, rest: string)
    requires '.' !in head
    ensures Head(head + "." + rest) == head
  {
    var text := head + "." + rest;
    if head != [] {
      assert text[1..] == head[1..] + "." + rest;
      HeadOfJoined(head[1..], rest);
    }
  }

  lemma {:induction false} ParsePrint(p: Path)
    requires Plain(p)
    ensures Parse(Print(p)) == p
  {
    if p.More? {
      var text := Print(p);
      HeadOfJoined(p.head, Print(p.rest));
      assert text[|p.head|] == '.';
      assert text[|p.head| + 1..] == Print(p.rest);
      ParsePrint(p.rest);
    }
  }

  /** `p` continues below `q`: its text is the text of `q`, a dot, and more. */
  predicate Below(p: Path, q: Path)
  {
    match (p, q)
    case (More(h, _), One(n)) => h == n
    case (More(h, r), More(h', r')) => h == h' && Below(r, r')
    case (One(_), _) => false
  }

  lemma {:induction false} BelowIsTextPrefix(p: Path, q: Path)
    requires Plain(p) && Plain(q)
    ensures Below(p, q) <==> Print(q) + "." <= Print(p)
  {
    var text, dotted := Print(p), Print(q) + ".";
    match (p, q)
    case (One(n), _) =>
      assert '.' !in text && dotted[|dotted| - 1] == '.';
    case (More(h, r), One(n)) =>
      if dotted <= text { FirstDot(h, Print(r), n, []); }
    case (More(h, r), More(h', r')) =>
      if dotted <= text {
        assert dotted == h' + "." + (Print(r') + ".");
        FirstDot(h, Print(r), h', Print(r') + ".");
        assert Print(r') + "." <= Print(r);
      }
      BelowIsTextPrefix(r, r');
      if h == h' && Print(r') + "." <= Print(r) {
        assert text == h + "." + Print(r);
        assert dotted <= text;
      }
  }

  lemma FirstDot(h: string, r: string, h': string, r': string)
    requires '.' !in h && '.' !in h' && h' + "." + r' <= h + "." + r
    ensures h == h' && r' <= r
  {
    var small, big := h' + "." + r', h + "." + r;
    assert small[|h'|] == '.' && big[|h|] == '.';
    assert h == big[..|h|] && h' == small[..|h'|];
    assert r == big[|h| + 1..] && r' == small[|h| + 1..];
  }
}
