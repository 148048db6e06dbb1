/** Mention extraction for `newMessage`: every match of the pattern
    `@\[[^\]]+\]\(([^)]+)\)` scanned left to right, as `matchAll` does,
    keeping the captured id. The markup is the one a mentions input widget
    writes: `@[display name](user id)`. */
module Mentions {
  import opened Common

  /** The position of the first `c` in `s`. */
  function IndexOf(s: string, c: char): (r: Option<nat>)
    ensures r.Some? ==> r.value < |s| && s[r.value] == c && c !in s[..r.value]
    ensures r.None? ==> c !in s
  {
    if s == [] then None
    else if s[0] == c then Some(0)
    else match IndexOf(s[1..], c)
      case None => None
      case Some(k) =>
        assert s[..k + 1] == [s[0]] + s[1..][..k];
        Some(k + 1)
  }

  /** The `(id)` part of a match: the id runs to the first `)` and is not
      empty. The captured id and the length of the part. */
  function MatchId(u: string): (r: Option<(string, nat)>)
    ensures r.Some? ==> 3 <= r.value.1 <= |u| && r.value.0 != "" && ')' !in r.value.0
  {
    if u == [] || u[0] != '(' then None
    else match IndexOf(u[1..], ')')
      case None => None
      case Some(m) =>
        if m == 0 then None
        else
          assert ')' !in u[1..][..m];
          Some((u[1..][..m], m + 2))
  }

  /** The part of a match after `@[`: a non-empty name running to the first
      `]`, then the `(id)` part. */
  function MatchBody(t: string): (r: Option<(string, nat)>)
    ensures r.Some? ==> 5 <= r.value.1 <= |t| && r.value.0 != "" && ')' !in r.value.0
  {
    match IndexOf(t, ']')
    case None => None
    case Some(k) =>
      if k == 0 then None
      else match MatchId(t[k + 1..])
        case None => None
        case Some((id, m)) => Some((id, k + 1 + m))
  }

  /** One match anchored at the start of `s`: the captured id and the length
      of the whole match. The name runs to the first `]` and the id to the
      first `)`, so no backtracking can produce another match. */
  function MatchAt(s: string): (r: Option<(string, nat)>)
    ensures r.Some? ==> 7 <= r.value.1 <= |s| && r.value.0 != "" && ')' !in r.value.0
  {
    if |s| < 2 || s[0] != '@' || s[1] != '[' then None
    else match MatchBody(s[2..])
      case None => None
      case Some((id, n)) => Some((id, n + 2))
  }

  /** The ids `[...content.matchAll(re)].map(m => m[1])`: after a match the
      scan resumes behind it, otherwise one character further on. */
  function Extract(s: string): (r: seq<string>)
    ensures forall i :: 0 <= i < |r| ==> r[i] != "" && ')' !in r[i]
    decreases |s|
  {
    if s == [] then []
    else match MatchAt(s)
      case Some((id, n)) => [id] + Extract(s[n..])
      case None => Extract(s[1..])
  }

  /** The markup for mentioning `name` with id `id`. */
  function Render(name: string, id: string): string {
    "@[" + name + "](" + id + ")"
  }

  /** A display name and an id the pattern can carry. */
  predicate Mentionable(name: string, id: string) {
    name != "" && ']' !in name && id != "" && ')' !in id
  }

  lemma IndexOfPrefix(a: string, c: char, b: string)
    requires c !in a
    ensures IndexOf(a + [c] + b, c) == Some(|a|)
  {
    var s := a + [c] + b;
    assert s[..|a|] == a;
    assert s[|a|] == c;
  }

  lemma MatchIdRendered(id: string, rest: string)
    requires id != "" && ')' !in id
    ensures MatchId("(" + id + ")" + rest) == Some((id, |id| + 2))
  {
    var u := "(" + id + ")" + rest;
    assert u[1..] == id + [')'] + rest;
    IndexOfPrefix(id, ')', rest);
    assert u[1..][..|id|] == id;
  }

  lemma MatchBodySplit(name: string, u: string)
    requires name != "" && ']' !in name && MatchId(u).Some?
    ensures MatchBody(name + [']'] + u) == Some((MatchId(u).value.0, |name| + 1 + MatchId(u).value.1))
  {
    var t := name + [']'] + u;
    IndexOfPrefix(name, ']', u);
    assert t[|name| + 1..] == u;
  }

  lemma MatchBodyRendered(name: string, id: string, rest: string)
    requires Mentionable(name, id)
    ensures MatchBody(name + "](" + id + ")" + rest) == Some((id, |name| + |id| + 3))
  {
    var u := "(" + id + ")" + rest;
    assert name + "](" + id + ")" + rest == name + [']'] + u;
    MatchIdRendered(id, rest);
    MatchBodySplit(name, u);
  }

  /** The rendered markup is matched whole, and the id comes back. */
  lemma MatchRendered(name: string, id: string, rest: string)
    requires Mentionable(name, id)
    ensures MatchAt(Render(name, id) + rest) == Some((id, |Render(name, id)|))
  {
    var s := Render(name, id) + rest;
    assert s[2..] == name + "](" + id + ")" + rest;
    MatchBodyRendered(name, id, rest);
  }

  lemma MatchIdIsRendered(u: string)
    requires MatchId(u).Some?
    ensures var (id, m) := MatchId(u).value;
      u[..m] == "(" + id + ")"
  {
    var m := IndexOf(u[1..], ')').value;
    var id := u[1..][..m];
    assert u[..m + 2] == [u[0]] + id + [u[m + 1]];
  }

  /** Cutting `t` at a separator position `k`. */
  lemma CutAt(t: string, k: nat, m: nat)
    requires k + 1 + m <= |t|
    ensures t[..k + 1 + m] == t[..k] + [t[k]] + t[k + 1..][..m]
  {
  }

  lemma MatchBodyIsRendered(t: string)
    requires MatchBody(t).Some?
    ensures var (id, n) := MatchBody(t).value;
      exists name :: Mentionable(name, id) && t[..n] == name + "](" + id + ")"
  {
    var k := IndexOf(t, ']').value;
    var u := t[k + 1..];
    var (id, m) := MatchId(u).value;
    MatchIdIsRendered(u);
    CutAt(t, k, m);
    var name := t[..k];
    assert "](" + id + ")" == [']'] + ("(" + id + ")");
    assert t[..k + 1 + m] == name + "](" + id + ")";
    assert Mentionable(name, id);
  }

  /** Every match is rendered markup: a display name without `]` and the
      captured id, between the pattern's brackets. */
  lemma MatchIsRendered(s: string)
    requires MatchAt(s).Some?
    ensures var (id, n) := MatchAt(s).value;
      exists name :: Mentionable(name, id) && s[..n] == Render(name, id)
  {
    var t := s[2..];
    var (id, n) := MatchBody(t).value;
    MatchBodyIsRendered(t);
    var name :| Mentionable(name, id) && t[..n] == name + "](" + id + ")";
    assert s[..n + 2] == s[..2] + t[..n];
    assert s[..2] == "@[";
    assert "@[" + (name + "](" + id + ")") == Render(name, id);
  }

  /** Mentions written as markup are extracted, in order. */
  lemma {:induction false} ExtractRendered(name: string, id: string, rest: string)
    requires Mentionable(name, id)
    ensures Extract(Render(name, id) + rest) == [id] + Extract(rest)
  {
    MatchRendered(name, id, rest);
    var s := Render(name, id) + rest;
    assert s[|Render(name, id)|..] == rest;
  }

  /** Text without an `@` contributes no mention and does not disturb the
      ones after it. */
  lemma {:induction false} ExtractPlain(t: string, rest: string)
    requires '@' !in t
    ensures Extract(t + rest) == Extract(rest)
    decreases |t|
  {
    if t != [] {
      assert (t + rest)[0] == t[0];
      assert (t + rest)[1..] == t[1..] + rest;
      ExtractPlain(t[1..], rest);
    } else {
      assert t + rest == rest;
    }
  }

  /** A message assembled from plain text and mentions. */
  datatype Piece = Piece(text: string, name: string, id: string)

  function Compose(ps: seq<Piece>): string {
    if ps == [] then "" else ps[0].text + Render(ps[0].name, ps[0].id) + Compose(ps[1..])
  }

  function Ids(ps: seq<Piece>): seq<string> {
    if ps == [] then [] else [ps[0].id] + Ids(ps[1..])
  }

  /** The round trip: composing a message from plain text without `@` and
      well-formed mentions, then extracting, gives back the ids in order. */
  lemma {:induction false} ExtractCompose(ps: seq<Piece>)
    requires forall i :: 0 <= i < |ps| ==> '@' !in ps[i].text && Mentionable(ps[i].name, ps[i].id)
    ensures Extract(Compose(ps)) == Ids(ps)
  {
    if ps != [] {
      var p := ps[0];
      var tail := Compose(ps[1..]);
      assert Compose(ps) == p.text + (Render(p.name, p.id) + tail);
      ExtractPlain(p.text, Render(p.name, p.id) + tail);
      ExtractRendered(p.name, p.id, tail);
      ExtractCompose(ps[1..]);
    }
  }

  /** Content without an `@` mentions nobody. */
  lemma NoAtNoMentions(s: string)
    requires '@' !in s
    ensures Extract(s) == []
  {
    ExtractPlain(s, "");
    assert s + "" == s;
  }

  /** An empty display name is not a mention: `@[](x)` yields nothing. */
  lemma EmptyNameIgnored(id: string)
    requires '@' !in id
    ensures Extract("@[](" + id + ")") == []
  {
    var s := "@[](" + id + ")";
    assert MatchAt(s) == None by {
      assert s[2..][0] == ']';
    }
    assert s[1..] == "[](" + id + ")";
    NoAtNoMentions(s[1..]);
  }
}
