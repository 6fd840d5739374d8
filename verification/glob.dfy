/**
  Shell-style patterns as `fnmatch.fnmatchcase` reads them: the pattern is
  translated into tokens the way `fnmatch.translate` rewrites it into a
  regular expression, and a name matches when the whole name is accepted,
  case-sensitively. As in section 2.13 of the POSIX Shell Command Language,
  `*` matches any string and `?` any single character, `[...]` a character
  of a class and `[!...]` one outside it; unlike the shell, `*`, `?` and a
  class also match `/` (and newline).
 */
module Glob {
  import opened Wrappers
  import PyStr

  /** One member of a bracket class: a single character or an inclusive range. */
  datatype ClassItem = Single(c: char) | Span(lo: char, hi: char)

  /** A translated pattern element. */
  datatype Token = Star | AnyChar | Lit(c: char) | Class(negated: bool, items: seq<ClassItem>)

  predicate InItem(it: ClassItem, c: char) {
    match it
    case Single(x) => c == x
    case Span(lo, hi) => lo <= c <= hi
  }

  predicate InClass(items: seq<ClassItem>, c: char) {
    exists i :: 0 <= i < |items| && InItem(items[i], c)
  }

  /** Whether token `t` accepts the piece `part` of a name. */
  predicate Accepts(t: Token, part: string) {
    match t
    case Star => true
    case AnyChar => |part| == 1
    case Lit(x) => part == [x]
    case Class(negated, items) => |part| == 1 && InClass(items, part[0]) != negated
  }

  /** Characters with a meaning of their own in a pattern. */
  predicate IsSpecial(c: char) {
    c == '*' || c == '?' || c == '['
  }

  predicate IsPlain(pat: string) {
    forall i :: 0 <= i < |pat| ==> !IsSpecial(pat[i])
  }

  /** The tokens matching exactly the string `s`. */
  function Lits(s: string): (ts: seq<Token>)
    ensures |ts| == |s|
    ensures forall i :: 0 <= i < |s| ==> ts[i] == Lit(s[i])
  {
    if s == [] then [] else [Lit(s[0])] + Lits(s[1..])
  }

  function Prepend(t: Token, r: Result<seq<Token>>): Result<seq<Token>> {
    match r
    case Ok(ts) => Ok([t] + ts)
    case Err(m) => Err(m)
  }

  /**
    The members of a class body, read left to right as the regular
    expression engine reads them: `x-y` is a range when a character follows
    the dash, a trailing dash is literal, and a range whose upper bound is
    below its lower bound is refused.
   */
  function ParseItems(body: string): (r: Result<seq<ClassItem>>)
    ensures r.Ok? ==> |r.value| <= |body|
    ensures r.Ok? ==> forall i :: 0 <= i < |r.value| && r.value[i].Span? ==> r.value[i].lo <= r.value[i].hi
    ensures r.Err? ==> exists i :: 0 <= i < |body| - 2 && body[i + 1] == '-' && body[i + 2] < body[i]
  {
    if body == [] then Ok([])
    else if |body| >= 3 && body[1] == '-' then
      if body[2] < body[0] then Err("bad character range")
      else
        match ParseItems(body[3..])
        case Err(m) =>
          ghost var i :| 0 <= i < |body[3..]| - 2 && body[3..][i + 1] == '-' && body[3..][i + 2] < body[3..][i];
          assert body[i + 4] == '-' && body[i + 5] < body[i + 3];
          Err(m)
        case Ok(rest) => Ok([Span(body[0], body[2])] + rest)
    else
      match ParseItems(body[1..])
      case Err(m) =>
        ghost var i :| 0 <= i < |body[1..]| - 2 && body[1..][i + 1] == '-' && body[1..][i + 2] < body[1..][i];
        assert body[i + 2] == '-' && body[i + 3] < body[i + 1];
        Err(m)
      case Ok(rest) => Ok([Single(body[0])] + rest)
  }

  /** A class body without a dash holds exactly its own characters. */
  lemma {:induction false} ParseItemsWithoutDash(body: string, c: char)
    requires '-' !in body
    ensures ParseItems(body).Ok?
    ensures InClass(ParseItems(body).value, c) <==> c in body
    decreases |body|
  {
    if body != [] {
      assert '-' !in body[1..] by {
        assert forall x :: x in body[1..] ==> x in body;
      }
      ParseItemsWithoutDash(body[1..], c);
      var rest := ParseItems(body[1..]).value;
      assert ParseItems(body).value == [Single(body[0])] + rest;
      InClassCons(body[0], rest, c);
      assert c in body <==> c == body[0] || c in body[1..] by {
        assert body == [body[0]] + body[1..];
      }
    }
  }

  lemma InClassCons(x: char, rest: seq<ClassItem>, c: char)
    ensures InClass([Single(x)] + rest, c) <==> c == x || InClass(rest, c)
  {
    var items := [Single(x)] + rest;
    if InClass(rest, c) {
      var i :| 0 <= i < |rest| && InItem(rest[i], c);
      assert InItem(items[i + 1], c);
    }
    if InClass(items, c) {
      var i :| 0 <= i < |items| && InItem(items[i], c);
      if i > 0 {
        assert InItem(rest[i - 1], c);
      }
    }
    if c == x {
      assert InItem(items[0], c);
    }
  }

  /** The first `]` at or after `j`, or the end of the pattern. */
  function ClassEnd(pat: string, j: nat): (k: nat)
    requires j <= |pat|
    ensures j <= k <= |pat|
    ensures k < |pat| ==> pat[k] == ']'
    ensures forall i :: j <= i < k ==> pat[i] != ']'
    decreases |pat| - j
  {
    if j == |pat| || pat[j] == ']' then j else ClassEnd(pat, j + 1)
  }

  /**
    Where the search for the closing `]` of a class opened by `pat[0]`
    begins: after an optional `!`, and after a `]` standing first in the
    class, which is a member and not the end.
   */
  function BracketStart(pat: string): (j: nat)
    requires pat != []
    ensures 1 <= j <= |pat|
  {
    var j1 := if 1 < |pat| && pat[1] == '!' then 2 else 1;
    if j1 < |pat| && pat[j1] == ']' then j1 + 1 else j1
  }

  /**
    `fnmatch.translate` followed by compilation of the regular expression:
    `*`, `?` and literals become tokens; `[` opens a class only when a
    closing `]` follows, and is a literal otherwise; a class whose body
    starts with `!` is negated, while `^` and `\` in a body are plain
    members. An invalid range is an error.
   */
  function Translate(pat: string): (r: Result<seq<Token>>)
    ensures r.Ok? ==> |r.value| <= |pat|
    ensures r.Ok? && pat != [] ==> r.value != []
    decreases |pat|
  {
    if pat == [] then Ok([])
    else if pat[0] == '[' then
      var j := ClassEnd(pat, BracketStart(pat));
      if j == |pat| then Prepend(Lit('['), Translate(pat[1..]))
      else
        var body := pat[1..j];
        var negated := body != [] && body[0] == '!';
        match ParseItems(if negated then body[1..] else body)
        case Err(m) => Err(m)
        case Ok(items) => Prepend(Class(negated, items), Translate(pat[j + 1..]))
    else
      var t := if pat[0] == '*' then Star else if pat[0] == '?' then AnyChar else Lit(pat[0]);
      Prepend(t, Translate(pat[1..]))
  }

  function CountFixed(ts: seq<Token>): (n: nat)
    ensures n <= |ts|
  {
    if ts == [] then 0 else (if ts[0] == Star then 0 else 1) + CountFixed(ts[1..])
  }

  /**
    Whole-string matching of translated tokens: `*` takes any number of
    characters, every other token exactly one.
   */
  function MatchTokens(ts: seq<Token>, s: string): (m: bool)
    ensures m ==> CountFixed(ts) <= |s|
    ensures m && CountFixed(ts) == |ts| ==> |s| == |ts|
    decreases |ts|, |s|
  {
    if ts == [] then s == []
    else if ts[0] == Star then MatchTokens(ts[1..], s) || (s != [] && MatchTokens(ts, s[1..]))
    else s != [] && Accepts(ts[0], [s[0]]) && MatchTokens(ts[1..], s[1..])
  }

  /** Case-sensitive whole-name matching of `name` against the pattern `pat`. */
  function FnMatchCase(name: string, pat: string): (r: Result<bool>)
    ensures r.Err? <==> Translate(pat).Err?
    ensures r.Ok? ==> (r.value <==> MatchTokens(Translate(pat).value, name))
    ensures r.Ok? ==> (r.value <==> exists parts :: Witness(Translate(pat).value, name, parts))
  {
    match Translate(pat)
    case Err(m) => Err(m)
    case Ok(ts) => MatchIffWitness(ts, name); Ok(MatchTokens(ts, name))
  }

  /**
    The declarative reading of a pattern: `s` cut into one piece per token,
    each piece accepted by its token.
   */
  predicate Witness(ts: seq<Token>, s: string, parts: seq<string>) {
    |parts| == |ts| && PyStr.Concat(parts) == s &&
    forall i :: 0 <= i < |ts| ==> Accepts(ts[i], parts[i])
  }

  lemma {:induction false} WitnessOfMatch(ts: seq<Token>, s: string) returns (parts: seq<string>)
    requires MatchTokens(ts, s)
    ensures Witness(ts, s, parts)
    decreases |ts|, |s|
  {
    if ts == [] {
      parts := [];
    } else if ts[0] == Star {
      if MatchTokens(ts[1..], s) {
        var p := WitnessOfMatch(ts[1..], s);
        parts := [[]] + p;
        assert parts[1..] == p;
        assert forall i :: 1 <= i < |ts| ==> ts[i] == ts[1..][i - 1] && parts[i] == p[i - 1];
      } else {
        var p := WitnessOfMatch(ts, s[1..]);
        parts := [[s[0]] + p[0]] + p[1..];
        assert parts[1..] == p[1..];
        assert PyStr.Concat(p) == p[0] + PyStr.Concat(p[1..]);
        assert s == [s[0]] + s[1..];
        assert forall i :: 1 <= i < |ts| ==> parts[i] == p[i];
      }
    } else {
      var p := WitnessOfMatch(ts[1..], s[1..]);
      parts := [[s[0]]] + p;
      assert parts[1..] == p;
      assert s == [s[0]] + s[1..];
      assert forall i :: 1 <= i < |ts| ==> ts[i] == ts[1..][i - 1] && parts[i] == p[i - 1];
    }
  }

  lemma {:induction false} MatchOfWitness(ts: seq<Token>, s: string, parts: seq<string>)
    requires Witness(ts, s, parts)
    ensures MatchTokens(ts, s)
    decreases |ts|, |s|
  {
    if ts != [] {
      assert PyStr.Concat(parts) == parts[0] + PyStr.Concat(parts[1..]);
      assert forall i :: 0 <= i < |ts| - 1 ==> ts[1..][i] == ts[i + 1] && parts[1..][i] == parts[i + 1];
      if ts[0] == Star && parts[0] != [] {
        var q := [parts[0][1..]] + parts[1..];
        assert q[1..] == parts[1..];
        assert parts[0] == [parts[0][0]] + parts[0][1..];
        assert s[1..] == PyStr.Concat(q);
        assert forall i :: 1 <= i < |ts| ==> q[i] == parts[i];
        MatchOfWitness(ts, s[1..], q);
      } else if ts[0] == Star {
        assert Witness(ts[1..], s, parts[1..]);
        MatchOfWitness(ts[1..], s, parts[1..]);
      } else {
        assert |parts[0]| == 1;
        assert s[1..] == PyStr.Concat(parts[1..]);
        assert parts[0] == [s[0]];
        MatchOfWitness(ts[1..], s[1..], parts[1..]);
      }
    }
  }

  /** The matcher agrees with the declarative reading, in both directions. */
  lemma MatchIffWitness(ts: seq<Token>, s: string)
    ensures MatchTokens(ts, s) <==> exists parts :: Witness(ts, s, parts)
  {
    if MatchTokens(ts, s) {
      var parts := WitnessOfMatch(ts, s);
    }
    if exists parts :: Witness(ts, s, parts) {
      var parts :| Witness(ts, s, parts);
      MatchOfWitness(ts, s, parts);
    }
  }

  /** A plain prefix translates to literals ahead of whatever the rest translates to. */
  lemma {:induction false} TranslatePlainPrefix(p: string, rest: string)
    requires IsPlain(p)
    ensures Translate(p + rest) == match Translate(rest)
      case Ok(ts) => Ok(Lits(p) + ts)
      case Err(m) => Err(m)
    decreases |p|
  {
    if p == [] {
      assert p + rest == rest;
      match Translate(rest)
      case Ok(ts) => assert Lits(p) + ts == ts;
      case Err(m) =>
    } else {
      var pat := p + rest;
      assert pat[0] == p[0] && !IsSpecial(p[0]);
      assert pat[1..] == p[1..] + rest;
      assert Translate(pat) == Prepend(Lit(p[0]), Translate(p[1..] + rest));
      assert IsPlain(p[1..]) by {
        assert forall i :: 0 <= i < |p| - 1 ==> p[1..][i] == p[i + 1];
      }
      TranslatePlainPrefix(p[1..], rest);
      assert Lits(p) == [Lit(p[0])] + Lits(p[1..]);
      match Translate(rest)
      case Ok(ts) => assert Lits(p) + ts == [Lit(p[0])] + (Lits(p[1..]) + ts);
      case Err(m) =>
    }
  }

  lemma TranslateStar()
    ensures Translate("*") == Ok([Star])
  {
    assert "*"[1..] == [];
    var none: seq<Token> := [];
    assert [Star] + none == [Star];
  }

  /** A pattern without `*`, `?` or `[` matches exactly itself. */
  lemma PlainPatternMatchesItself(name: string, pat: string)
    requires IsPlain(pat)
    ensures Translate(pat) == Ok(Lits(pat))
    ensures FnMatchCase(name, pat) == Ok(name == pat)
  {
    TranslatePlainPrefix(pat, []);
    assert pat + [] == pat;
    LitsMatch(pat, name, []);
    assert Lits(pat) + [] == Lits(pat);
    assert name == pat + [] <==> name == pat;
  }

  /** Literal tokens followed by `ts` match `s` iff `s` starts with those characters and `ts` matches the rest. */
  lemma {:induction false} LitsMatch(p: string, s: string, ts: seq<Token>)
    ensures MatchTokens(Lits(p) + ts, s) <==>
      |p| <= |s| && s[..|p|] == p && MatchTokens(ts, s[|p|..])
    decreases |p|
  {
    if p == [] {
      assert Lits(p) + ts == ts;
      assert s[..0] == p && s[0..] == s;
    } else {
      var us := Lits(p) + ts;
      assert us[0] == Lit(p[0]) && us[1..] == Lits(p[1..]) + ts;
      if s != [] {
        assert MatchTokens(us, s) == (s[0] == p[0] && MatchTokens(Lits(p[1..]) + ts, s[1..]));
        LitsMatch(p[1..], s[1..], ts);
        if |p| <= |s| {
          assert s[1..][|p| - 1..] == s[|p|..];
          PrefixByHead(s, |p|);
          PrefixByHead(p, |p|);
          assert p[..|p|] == p;
        }
      }
    }
  }

  lemma PrefixByHead<T>(s: seq<T>, n: int)
    requires 1 <= n <= |s|
    ensures s[..n] == [s[0]] + s[1..][..n - 1]
  {
  }

  lemma {:induction false} StarMatchesAny(s: string)
    ensures MatchTokens([Star], s)
    decreases |s|
  {
    assert [Star][1..] == [];
    if s != [] {
      StarMatchesAny(s[1..]);
    }
  }

  /** `p*` for a plain `p` matches exactly the names starting with `p`. */
  lemma PrefixPattern(p: string, name: string)
    requires IsPlain(p)
    ensures FnMatchCase(name, p + "*") == Ok(|p| <= |name| && name[..|p|] == p)
  {
    TranslatePlainPrefix(p, "*");
    TranslateStar();
    LitsMatch(p, name, [Star]);
    if |p| <= |name| {
      StarMatchesAny(name[|p|..]);
    }
  }

  /** `*` followed by `ts` matches `s` iff `ts` matches some suffix of `s`. */
  lemma {:induction false} StarThen(ts: seq<Token>, s: string)
    ensures MatchTokens([Star] + ts, s) <==> exists k :: 0 <= k <= |s| && MatchTokens(ts, s[k..])
    decreases |s|
  {
    var st := [Star] + ts;
    assert st[0] == Star && st[1..] == ts;
    assert s[0..] == s;
    if s != [] {
      StarThen(ts, s[1..]);
      if MatchTokens(st, s) && !MatchTokens(ts, s) {
        assert MatchTokens(st, s[1..]);
        var k :| 0 <= k <= |s[1..]| && MatchTokens(ts, s[1..][k..]);
        assert s[1..][k..] == s[k + 1..];
      }
      if exists k :: 0 <= k <= |s| && MatchTokens(ts, s[k..]) {
        var k :| 0 <= k <= |s| && MatchTokens(ts, s[k..]);
        if k > 0 {
          assert s[1..][k - 1..] == s[k..];
          assert MatchTokens(st, s[1..]);
        }
      }
    }
  }

  /** `*p*` for a plain `p` matches every name containing `p`. */
  lemma InfixPattern(p: string, a: string, b: string)
    requires IsPlain(p)
    ensures FnMatchCase(a + p + b, "*" + p + "*") == Ok(true)
  {
    var s := a + p + b;
    assert "*" + p + "*" == "*" + (p + "*");
    TranslatePlainPrefix(p, "*");
    TranslateStar();
    var tail := Lits(p) + [Star];
    assert Translate("*" + (p + "*")) == Ok([Star] + tail);
    LitsMatch(p, s[|a|..], [Star]);
    assert s[|a|..] == p + b;
    assert (p + b)[..|p|] == p;
    StarMatchesAny((p + b)[|p|..]);
    StarThen(tail, s);
  }

  /** With no `]` from `j` on but the last character, the class closes at the last character. */
  lemma {:induction false} ClassEndAtLast(pat: string, j: nat)
    requires j < |pat| && pat[|pat| - 1] == ']'
    requires forall i :: j <= i < |pat| - 1 ==> pat[i] != ']'
    ensures ClassEnd(pat, j) == |pat| - 1
    decreases |pat| - j
  {
    if j < |pat| - 1 {
      ClassEndAtLast(pat, j + 1);
    }
  }

  /** `[body]` is one class token when `body` is a valid class body that neither starts with `!` nor holds a `]`. */
  lemma {:induction false} TranslateClass(body: string, items: seq<ClassItem>)
    requires body != [] && body[0] != '!' && ParseItems(body) == Ok(items)
    requires forall i :: 0 <= i < |body| ==> body[i] != ']'
    ensures Translate("[" + body + "]") == Ok([Class(false, items)])
    ensures Translate("[!" + body + "]") == Ok([Class(true, items)])
  {
    var noTokens: seq<Token> := [];
    var pos := "[" + body + "]";
    assert pos[1] == body[0];
    assert BracketStart(pos) == 1;
    var k := ClassEnd(pos, 1);
    assert forall i :: 1 <= i < |pos| - 1 ==> pos[i] == body[i - 1];
    ClassEndAtLast(pos, 1);
    assert pos[1..k] == body;
    assert pos[k + 1..] == [];
    assert [Class(false, items)] + noTokens == [Class(false, items)];
    var neg := "[!" + body + "]";
    assert neg[1] == '!' && neg[2] == body[0];
    assert BracketStart(neg) == 2;
    var j := ClassEnd(neg, 2);
    assert forall i :: 2 <= i < |neg| - 1 ==> neg[i] == body[i - 2];
    ClassEndAtLast(neg, 2);
    assert neg[1..j] == "!" + body;
    assert ("!" + body)[1..] == body;
    assert neg[j + 1..] == [];
    assert [Class(true, items)] + noTokens == [Class(true, items)];
  }

  /**
    Negating a class flips the answer of `fnmatchcase`: for a one-character
    name, `[!body]` matches exactly when `[body]` does not; any other name
    matches neither.
   */
  lemma NegationFlips(name: string, body: string, items: seq<ClassItem>)
    requires body != [] && body[0] != '!' && ParseItems(body) == Ok(items)
    requires forall i :: 0 <= i < |body| ==> body[i] != ']'
    ensures FnMatchCase(name, "[" + body + "]").Ok? && FnMatchCase(name, "[!" + body + "]").Ok?
    ensures |name| == 1 ==> FnMatchCase(name, "[!" + body + "]").value == !FnMatchCase(name, "[" + body + "]").value
    ensures |name| != 1 ==> !FnMatchCase(name, "[" + body + "]").value && !FnMatchCase(name, "[!" + body + "]").value
  {
    TranslateClass(body, items);
    OneClassMatch(false, items, name);
    OneClassMatch(true, items, name);
  }

  /** A lone class token matches exactly the one-character names it accepts. */
  lemma OneClassMatch(negated: bool, items: seq<ClassItem>, name: string)
    ensures MatchTokens([Class(negated, items)], name) <==> |name| == 1 && InClass(items, name[0]) != negated
  {
    var ts := [Class(negated, items)];
    assert ts[1..] == [];
  }

  /** Rendering of tokens without classes back into pattern text. */
  function Render(ts: seq<Token>): string
  {
    if ts == [] then []
    else
      (match ts[0]
       case Star => "*"
       case AnyChar => "?"
       case Lit(c) => [c]
       case Class(_, _) => "[]") + Render(ts[1..])
  }

  predicate Renderable(t: Token) {
    t.Star? || t.AnyChar? || (t.Lit? && !IsSpecial(t.c))
  }

  /** Translating a rendered token sequence gives the tokens back. */
  lemma {:induction false} TranslateRender(ts: seq<Token>)
    requires forall i :: 0 <= i < |ts| ==> Renderable(ts[i])
    ensures Translate(Render(ts)) == Ok(ts)
    decreases |ts|
  {
    if ts != [] {
      var pat := Render(ts);
      assert pat[0] != '[';
      assert pat[1..] == Render(ts[1..]);
      TranslateRender(ts[1..]);
      assert ts == [ts[0]] + ts[1..];
    }
  }

  /** A negated class: `[!ab]`. */
  lemma NegatedClassExample()
    ensures Translate("[!ab]") == Ok([Class(true, [Single('a'), Single('b')])])
  {
    var pat := "[!ab]";
    assert BracketStart(pat) == 2;
    assert ClassEnd(pat, 4) == 4;
    assert ClassEnd(pat, 3) == 4;
    assert ClassEnd(pat, 2) == 4;
    assert pat[1..4] == "!ab";
    assert "!ab"[1..] == "ab";
    assert "ab"[1..] == "b";
    assert "b"[1..] == [];
    var none: seq<ClassItem> := [];
    assert [Single('b')] + none == [Single('b')];
    assert ParseItems("b") == Ok([Single('b')]);
    assert [Single('a')] + [Single('b')] == [Single('a'), Single('b')];
    assert ParseItems("ab") == Ok([Single('a'), Single('b')]);
    assert pat[5..] == [];
    var noTokens: seq<Token> := [];
    assert [Class(true, [Single('a'), Single('b')])] + noTokens == [Class(true, [Single('a'), Single('b')])];
  }

  /** A `]` first in a class is a member: `[]a]`. */
  lemma LeadingBracketExample()
    ensures Translate("[]a]") == Ok([Class(false, [Single(']'), Single('a')])])
  {
    var pat := "[]a]";
    assert BracketStart(pat) == 2;
    assert ClassEnd(pat, 3) == 3;
    assert ClassEnd(pat, 2) == 3;
    assert pat[1..3] == "]a";
    assert "]a"[1..] == "a";
    assert "a"[1..] == [];
    var none: seq<ClassItem> := [];
    assert [Single('a')] + none == [Single('a')];
    assert ParseItems("a") == Ok([Single('a')]);
    assert [Single(']')] + [Single('a')] == [Single(']'), Single('a')];
    assert ParseItems("]a") == Ok([Single(']'), Single('a')]);
    assert pat[4..] == [];
    var noTokens: seq<Token> := [];
    assert [Class(false, [Single(']'), Single('a')])] + noTokens == [Class(false, [Single(']'), Single('a')])];
  }

  /** A range, `[a-c]`, and a refused reversed range, `[z-a]`. */
  lemma RangeExamples()
    ensures Translate("[a-c]") == Ok([Class(false, [Span('a', 'c')])])
    ensures Translate("[z-a]").Err?
  {
    var pat := "[a-c]";
    assert BracketStart(pat) == 1;
    assert ClassEnd(pat, 4) == 4;
    assert ClassEnd(pat, 3) == 4;
    assert ClassEnd(pat, 2) == 4;
    assert ClassEnd(pat, 1) == 4;
    assert pat[1..4] == "a-c";
    assert "a-c"[3..] == [];
    var none: seq<ClassItem> := [];
    assert [Span('a', 'c')] + none == [Span('a', 'c')];
    assert ParseItems("a-c") == Ok([Span('a', 'c')]);
    assert pat[5..] == [];
    var noTokens: seq<Token> := [];
    assert [Class(false, [Span('a', 'c')])] + noTokens == [Class(false, [Span('a', 'c')])];
    var bad := "[z-a]";
    assert BracketStart(bad) == 1;
    assert ClassEnd(bad, 4) == 4;
    assert ClassEnd(bad, 3) == 4;
    assert ClassEnd(bad, 2) == 4;
    assert ClassEnd(bad, 1) == 4;
    assert bad[1..4] == "z-a";
    assert ParseItems("z-a").Err?;
  }

  /** An unclosed `[` is a literal: `[ab`. */
  lemma UnclosedBracketExample()
    ensures Translate("[ab") == Ok([Lit('['), Lit('a'), Lit('b')])
  {
    var pat := "[ab";
    assert BracketStart(pat) == 1;
    assert ClassEnd(pat, 3) == 3;
    assert ClassEnd(pat, 2) == 3;
    assert ClassEnd(pat, 1) == 3;
    assert pat[1..] == "ab";
    TranslatePlainPrefix("ab", []);
    assert "ab" + [] == "ab";
    assert Lits("ab") == [Lit('a'), Lit('b')] by {
      assert "ab"[1..] == "b";
      assert "b"[1..] == [];
      var none: seq<Token> := [];
      assert [Lit('b')] + none == [Lit('b')];
    }
    var none: seq<Token> := [];
    assert Lits("ab") + none == Lits("ab");
    assert Translate("ab") == Ok([Lit('a'), Lit('b')]);
    assert [Lit('[')] + [Lit('a'), Lit('b')] == [Lit('['), Lit('a'), Lit('b')];
  }
}
