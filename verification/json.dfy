/**
  The compact JSON encoder used when neither Trac nor the standard library
  provides one: `javascript_quote` with its escape table, and `to_json` over
  the Python values it accepts. Objects have string keys and are written in
  ascending key order, so the output does not depend on insertion order.
 */
module Json {
  import opened Wrappers
  import PyStr

  /**
    The Python values `to_json` is given: `None`, booleans, integers, byte
    strings, lists (and tuples), dicts with string keys, and anything else,
    known only by its type name.
   */
  datatype PyValue =
    | PyNone
    | PyBool(b: bool)
    | PyInt(i: int)
    | PyString(s: string)
    | PyList(items: seq<PyValue>)
    | PyDict(entries: seq<(string, PyValue)>)
    | PyOther(typeName: string)

  const Backspace: char := '\U{0008}'
  const FormFeed: char := '\U{000C}'

  /** A control character: below 0x20. */
  predicate IsControl(c: char) {
    c < ' '
  }

  predicate NoControl(s: string) {
    forall i :: 0 <= i < |s| ==> !IsControl(s[i])
  }

  lemma NoControlAppend(a: string, b: string)
    requires NoControl(a) && NoControl(b)
    ensures NoControl(a + b)
  {
    assert forall i :: |a| <= i < |a + b| ==> (a + b)[i] == b[i - |a|];
  }

  /** Lower-case hexadecimal digit of `n`, as `'%x'` writes it. */
  function HexDigit(n: nat): (d: char)
    requires n < 16
    ensures '0' <= d <= '9' || 'a' <= d <= 'f'
  {
    if n < 10 then (48 + n) as char else (97 + n - 10) as char
  }

  predicate IsHex(d: char) {
    '0' <= d <= '9' || 'a' <= d <= 'f'
  }

  function HexValue(d: char): (n: nat)
    requires IsHex(d)
    ensures n < 16
  {
    if d <= '9' then d as int - 48 else d as int - 97 + 10
  }

  lemma HexRoundTrip(n: nat)
    requires n < 16
    ensures HexValue(HexDigit(n)) == n
  {
  }

  /** The characters the escape table rewrites. */
  predicate NeedsEscape(c: char) {
    c == '\\' || c == '"' || c == '\'' || IsControl(c)
  }

  /** The entry of the escape table for `c`, or `c` itself when it has none. */
  function Escape(c: char): (e: string)
    ensures NeedsEscape(c) ==> |e| >= 2 && e[0] == '\\'
    ensures !NeedsEscape(c) ==> e == [c]
    ensures NoControl(e)
  {
    if c == '\\' then "\\\\"
    else if c == '"' then "\\\""
    else if c == '\'' then "\\'"
    else if c == Backspace then "\\b"
    else if c == FormFeed then "\\f"
    else if c == '\n' then "\\n"
    else if c == '\r' then "\\r"
    else if c == '\t' then "\\t"
    else if IsControl(c) then "\\u00" + [HexDigit(c as int / 16), HexDigit(c as int % 16)]
    else [c]
  }

  function EscapeAll(text: string): (r: string)
    ensures |r| >= |text|
    ensures NoControl(r)
    ensures (forall i :: 0 <= i < |text| ==> !NeedsEscape(text[i])) ==> r == text
  {
    if text == [] then []
    else
      var e := Escape(text[0]);
      var rest := EscapeAll(text[1..]);
      NoControlAppend(e, rest);
      e + rest
  }

  /** `javascript_quote(text)`: every character replaced by its table entry; `''` stays `''`. */
  function JsQuote(text: string): (r: string)
    ensures |r| >= |text|
    ensures NoControl(r)
    ensures text == [] ==> r == []
  {
    if text == [] then [] else EscapeAll(text)
  }

  function Cons(c: char, r: Option<string>): Option<string> {
    match r
    case Some(s) => Some([c] + s)
    case None => None
  }

  /**
    Reading a quoted string back: the inverse of `JsQuote`, accepting the
    two-character escapes of the table and `\u00XX`.
   */
  function Unquote(s: string): Option<string>
    decreases |s|
  {
    if s == [] then Some([])
    else if s[0] != '\\' then Cons(s[0], Unquote(s[1..]))
    else if |s| < 2 then None
    else
      var c := s[1];
      if c == '\\' || c == '"' || c == '\'' then Cons(c, Unquote(s[2..]))
      else if c == 'b' then Cons(Backspace, Unquote(s[2..]))
      else if c == 'f' then Cons(FormFeed, Unquote(s[2..]))
      else if c == 'n' then Cons('\n', Unquote(s[2..]))
      else if c == 'r' then Cons('\r', Unquote(s[2..]))
      else if c == 't' then Cons('\t', Unquote(s[2..]))
      else if c == 'u' && |s| >= 6 && s[2] == '0' && s[3] == '0' && IsHex(s[4]) && IsHex(s[5]) then
        Cons((HexValue(s[4]) * 16 + HexValue(s[5])) as char, Unquote(s[6..]))
      else None
  }

  lemma UnquoteEscape(c: char, rest: string)
    ensures Unquote(Escape(c) + rest) == Cons(c, Unquote(rest))
  {
    if IsControl(c) && c != Backspace && c != FormFeed && c != '\n' && c != '\r' && c != '\t' {
      UnquoteHexEscape(c, rest);
    } else if NeedsEscape(c) {
      UnquoteNamedEscape(c, rest);
    } else {
      var s := Escape(c) + rest;
      assert s[0] == c && s[1..] == rest;
    }
  }

  /** A `\u00XX` escape reads back as the control character it encodes. */
  lemma UnquoteHexEscape(c: char, rest: string)
    requires IsControl(c) && c != Backspace && c != FormFeed && c != '\n' && c != '\r' && c != '\t'
    ensures Unquote(Escape(c) + rest) == Cons(c, Unquote(rest))
  {
    var n := c as int;
    var hi, lo := HexDigit(n / 16), HexDigit(n % 16);
    var s := Escape(c) + rest;
    assert Escape(c) == "\\u00" + [hi, lo];
    HexRoundTrip(n / 16);
    HexRoundTrip(n % 16);
    assert s[0] == '\\' && s[1] == 'u' && s[2] == '0' && s[3] == '0' && s[4] == hi && s[5] == lo;
    assert s[6..] == rest;
    assert (HexValue(hi) * 16 + HexValue(lo)) as char == c;
  }

  /** A two-character escape reads back as the character it stands for. */
  lemma UnquoteNamedEscape(c: char, rest: string)
    requires NeedsEscape(c)
    requires !(IsControl(c) && c != Backspace && c != FormFeed && c != '\n' && c != '\r' && c != '\t')
    ensures Unquote(Escape(c) + rest) == Cons(c, Unquote(rest))
  {
    var s := Escape(c) + rest;
    assert |Escape(c)| == 2;
    assert s[0] == '\\' && s[1] == Escape(c)[1];
    assert s[2..] == rest;
  }

  /** Unquoting a quoted string gives the string back. */
  lemma {:induction false} QuoteRoundTrip(text: string)
    ensures Unquote(JsQuote(text)) == Some(text)
    decreases |text|
  {
    if text != [] {
      QuoteRoundTrip(text[1..]);
      UnquoteEscape(text[0], EscapeAll(text[1..]));
      if text[1..] == [] {
        assert EscapeAll(text[1..]) == [];
      }
      assert [text[0]] + text[1..] == text;
    }
  }

  lemma {:induction false} EscapeAllAppend(a: string, b: string)
    ensures EscapeAll(a + b) == EscapeAll(a) + EscapeAll(b)
    decreases |a|
  {
    if a == [] {
      assert a + b == b;
    } else {
      assert (a + b)[1..] == a[1..] + b;
      EscapeAllAppend(a[1..], b);
    }
  }

  /**
    A double quote is escaped with a backslash and the characters around it
    are copied, as in `a " quote` written `a \" quote`.
   */
  lemma QuoteBetweenPlainText(front: string, back: string)
    requires forall i :: 0 <= i < |front| ==> !NeedsEscape(front[i])
    requires forall i :: 0 <= i < |back| ==> !NeedsEscape(back[i])
    ensures JsQuote(front + "\"" + back) == front + "\\\"" + back
  {
    var quote := "\"";
    assert EscapeAll(quote) == "\\\"" by {
      assert quote[1..] == [];
    }
    EscapeAllAppend(front + quote, back);
    EscapeAllAppend(front, quote);
  }

  /** Control characters without a short escape are written as `\u00XX` in lower case. */
  lemma ControlExamples()
    ensures JsQuote("\n") == "\\n"
    ensures JsQuote("\U{0001}") == "\\u0001"
    ensures JsQuote("\U{001F}") == "\\u001f"
  {
    assert "\U{0001}"[1..] == [];
    assert HexDigit(0) == '0' && HexDigit(1) == '1' && HexDigit(15) == 'f';
    assert "\n"[1..] == [];
    assert "\U{001F}"[1..] == [];
  }

  /** Decimal digits of a natural number, as `str` writes them. */
  function Digits(n: nat): (d: string)
    ensures d != []
    ensures forall i :: 0 <= i < |d| ==> '0' <= d[i] <= '9'
    decreases n
  {
    if n < 10 then [(48 + n) as char] else Digits(n / 10) + [(48 + n % 10) as char]
  }

  function DigitsValue(d: string): int
    decreases |d|
  {
    if d == [] then 0 else DigitsValue(d[..|d| - 1]) * 10 + (d[|d| - 1] as int - 48)
  }

  lemma {:induction false} DigitsRoundTrip(n: nat)
    ensures DigitsValue(Digits(n)) == n
    decreases n
  {
    if n >= 10 {
      DigitsRoundTrip(n / 10);
      var d := Digits(n);
      assert d[..|d| - 1] == Digits(n / 10);
    }
  }

  /** `str(i)` for an integer: a minus sign before the digits of a negative number. */
  function IntToString(i: int): (s: string)
    ensures s != [] && NoControl(s)
    ensures i < 0 <==> s[0] == '-'
  {
    if i < 0 then "-" + Digits(-i) else Digits(i)
  }

  /** Reading `str(i)` back. */
  function ParseInt(s: string): int {
    if s != [] && s[0] == '-' then -DigitsValue(s[1..]) else DigitsValue(s)
  }

  lemma IntRoundTrip(i: int)
    ensures ParseInt(IntToString(i)) == i
  {
    if i < 0 {
      DigitsRoundTrip(-i);
      assert IntToString(i)[1..] == Digits(-i);
    } else {
      DigitsRoundTrip(i);
    }
  }

  /** Python 2 byte-string order: lexicographic by character, a proper prefix first. */
  predicate Lt(a: string, b: string)
    decreases |a|
  {
    b != [] && (a == [] || a[0] < b[0] || (a[0] == b[0] && Lt(a[1..], b[1..])))
  }

  lemma {:induction false} LtIrreflexive(a: string)
    ensures !Lt(a, a)
    decreases |a|
  {
    if a != [] {
      LtIrreflexive(a[1..]);
    }
  }

  lemma {:induction false} LtAsymmetric(a: string, b: string)
    ensures Lt(a, b) ==> !Lt(b, a)
    decreases |a|
  {
    if a != [] && b != [] && a[0] == b[0] {
      LtAsymmetric(a[1..], b[1..]);
    }
  }

  lemma {:induction false} LtTransitive(a: string, b: string, c: string)
    requires Lt(a, b) && Lt(b, c)
    ensures Lt(a, c)
    decreases |a|
  {
    if a != [] && a[0] == b[0] && b[0] == c[0] {
      LtTransitive(a[1..], b[1..], c[1..]);
    }
  }

  lemma {:induction false} LtTotal(a: string, b: string)
    ensures a == b || Lt(a, b) || Lt(b, a)
    decreases |a|
  {
    if a != [] && b != [] && a[0] == b[0] {
      LtTotal(a[1..], b[1..]);
      if a[1..] == b[1..] {
        assert a == [a[0]] + a[1..] && b == [b[0]] + b[1..];
      }
    }
  }

  type Entry = (string, PyValue)

  /** Entries in non-decreasing key order. */
  predicate SortedByKey(es: seq<Entry>) {
    forall i, j :: 0 <= i < j < |es| ==> !Lt(es[j].0, es[i].0)
  }

  /** Insertion of `e` before the first entry whose key is not below its own. */
  function Insert(e: Entry, es: seq<Entry>): (r: seq<Entry>)
    requires SortedByKey(es)
    ensures multiset(r) == multiset(es) + multiset{e}
    ensures SortedByKey(r)
  {
    if es == [] then [e]
    else if !Lt(es[0].0, e.0) then
      InsertFront(e, es);
      [e] + es
    else
      var rest := Insert(e, es[1..]);
      InsertLater(e, es, rest);
      [es[0]] + rest
  }

  /** An entry whose key is not above the first key can go in front. */
  lemma InsertFront(e: Entry, es: seq<Entry>)
    requires SortedByKey(es) && es != [] && !Lt(es[0].0, e.0)
    ensures SortedByKey([e] + es)
  {
    forall j | 0 <= j < |es|
      ensures !Lt(es[j].0, e.0)
    {
      if j > 0 && Lt(es[j].0, e.0) {
        LtTotal(es[0].0, e.0);
        if es[0].0 != e.0 {
          LtTransitive(es[j].0, e.0, es[0].0);
        }
      }
    }
    var r := [e] + es;
    assert forall j :: 0 < j < |r| ==> r[j] == es[j - 1];
  }

  /** An entry whose key is above the first key goes into the rest. */
  lemma InsertLater(e: Entry, es: seq<Entry>, rest: seq<Entry>)
    requires SortedByKey(es) && es != [] && Lt(es[0].0, e.0)
    requires SortedByKey(rest) && multiset(rest) == multiset(es[1..]) + multiset{e}
    ensures multiset([es[0]] + rest) == multiset(es) + multiset{e}
    ensures SortedByKey([es[0]] + rest)
  {
    assert es == [es[0]] + es[1..];
    forall j | 0 <= j < |rest|
      ensures !Lt(rest[j].0, es[0].0)
    {
      assert rest[j] in multiset(rest);
      if rest[j] == e {
        LtAsymmetric(es[0].0, e.0);
      } else {
        assert rest[j] in multiset(es[1..]);
        var k :| 0 <= k < |es[1..]| && es[1..][k] == rest[j];
        assert es[k + 1] == rest[j];
      }
    }
    var r := [es[0]] + rest;
    assert forall j :: 0 < j < |r| ==> r[j] == rest[j - 1];
  }

  /** `sorted(d.iteritems())` for a dict with string keys. */
  function SortByKey(es: seq<Entry>): (r: seq<Entry>)
    ensures multiset(r) == multiset(es)
    ensures SortedByKey(r)
  {
    if es == [] then []
    else
      assert es == [es[0]] + es[1..];
      Insert(es[0], SortByKey(es[1..]))
  }

  /** Entries with equal keys are equal, as in any dict. */
  predicate KeysDetermine(m: multiset<Entry>) {
    forall x, y :: x in m && y in m && x.0 == y.0 ==> x == y
  }

  lemma SortedTail(a: seq<Entry>)
    requires a != [] && SortedByKey(a)
    ensures SortedByKey(a[1..])
  {
    assert forall p, q :: 0 <= p < q < |a| - 1 ==> a[1..][p] == a[p + 1] && a[1..][q] == a[q + 1];
  }

  /** The first entries of two key-sorted orderings of the same dict entries agree. */
  lemma SortedHeads(a: seq<Entry>, b: seq<Entry>)
    requires a != [] && b != []
    requires SortedByKey(a) && SortedByKey(b) && multiset(a) == multiset(b)
    requires KeysDetermine(multiset(a))
    ensures a[0] == b[0]
  {
    assert a[0] in multiset(b) && b[0] in multiset(a);
    var i :| 0 <= i < |b| && b[i] == a[0];
    var j :| 0 <= j < |a| && a[j] == b[0];
    if i > 0 {
      assert !Lt(b[i].0, b[0].0);
    } else {
      LtIrreflexive(a[0].0);
    }
    if j > 0 {
      assert !Lt(a[j].0, a[0].0);
    } else {
      LtIrreflexive(b[0].0);
    }
    LtTotal(a[0].0, b[0].0);
  }

  lemma TailMultiset(a: seq<Entry>, b: seq<Entry>)
    requires a != [] && b != [] && a[0] == b[0] && multiset(a) == multiset(b)
    requires KeysDetermine(multiset(a))
    ensures multiset(a[1..]) == multiset(b[1..])
    ensures KeysDetermine(multiset(a[1..]))
  {
    assert a == [a[0]] + a[1..] && b == [b[0]] + b[1..];
    assert multiset(a) == multiset{a[0]} + multiset(a[1..]);
    assert multiset(b) == multiset{b[0]} + multiset(b[1..]);
    assert multiset(a[1..]) == multiset(a) - multiset{a[0]};
    assert multiset(b[1..]) == multiset(b) - multiset{b[0]};
  }

  /** Two key-sorted orderings of the same entries of a dict are the same sequence. */
  lemma {:induction false} SortedUnique(a: seq<Entry>, b: seq<Entry>)
    requires SortedByKey(a) && SortedByKey(b) && multiset(a) == multiset(b)
    requires KeysDetermine(multiset(a))
    ensures a == b
    decreases |a|
  {
    assert |b| == |a| by {
      assert |multiset(a)| == |a| && |multiset(b)| == |b|;
    }
    if a != [] {
      SortedHeads(a, b);
      TailMultiset(a, b);
      SortedTail(a);
      SortedTail(b);
      SortedUnique(a[1..], b[1..]);
      assert a == [a[0]] + a[1..] && b == [b[0]] + b[1..];
    }
  }

  /** A value every part of which `to_json` encodes. */
  predicate Supported(v: PyValue)
    decreases v
  {
    match v
    case PyList(items) => forall i :: 0 <= i < |items| ==> Supported(items[i])
    case PyDict(entries) => forall i :: 0 <= i < |entries| ==> Supported(entries[i].1)
    case PyOther(_) => false
    case _ => true
  }

  /** The first failure among encodings evaluated in order, or all of their texts. */
  function Gather(rs: seq<Result<string>>): (r: Result<seq<string>>)
    ensures r.Ok? <==> forall i :: 0 <= i < |rs| ==> rs[i].Ok?
    ensures r.Ok? ==> |r.value| == |rs| && forall i :: 0 <= i < |rs| ==> r.value[i] == rs[i].value
    ensures r.Err? ==> exists i :: 0 <= i < |rs| && rs[i] == Err(r.message) &&
                                   (forall j :: 0 <= j < i ==> rs[j].Ok?)
  {
    if rs == [] then Ok([])
    else
      match rs[0]
      case Err(m) => Err(m)
      case Ok(s) =>
        var rest := Gather(rs[1..]);
        assert forall i :: 1 <= i < |rs| ==> rs[1..][i - 1] == rs[i];
        match rest
        case Err(m) =>
          ghost var k :| 0 <= k < |rs[1..]| && rs[1..][k] == Err(m) && forall j :: 0 <= j < k ==> rs[1..][j].Ok?;
          assert rs[k + 1] == Err(m) && forall j :: 0 <= j < k + 1 ==> rs[j].Ok?;
          Err(m)
        case Ok(ss) => Ok([s] + ss)
  }

  /** A string literal: the quoted text between double quotes. */
  function Quoted(s: string): (q: string)
    ensures NoControl(q)
    ensures |q| >= |s| + 2 && q[0] == '"' && q[|q| - 1] == '"'
  {
    NoControlAppend("\"", JsQuote(s));
    NoControlAppend("\"" + JsQuote(s), "\"");
    "\"" + JsQuote(s) + "\""
  }

  /** One object member: the quoted key, a colon, then the value's encoding. */
  function Member(key: string, value: Result<string>): (r: Result<string>)
    ensures r.Ok? <==> value.Ok?
    ensures value.Ok? && NoControl(value.value) ==> NoControl(r.value)
  {
    match value
    case Ok(text) =>
      NoControlAppend(Quoted(key), ":");
      if NoControl(text) then
        NoControlAppend(Quoted(key) + ":", text);
        Ok(Quoted(key) + ":" + text)
      else Ok(Quoted(key) + ":" + text)
    case Err(m) => Err(m)
  }

  lemma {:induction false} JoinNoControl(parts: seq<string>)
    requires forall i :: 0 <= i < |parts| ==> NoControl(parts[i])
    ensures NoControl(PyStr.Join(",", parts))
    decreases |parts|
  {
    if |parts| > 1 {
      JoinNoControl(parts[1..]);
      NoControlAppend(parts[0], ",");
      NoControlAppend(parts[0] + ",", PyStr.Join(",", parts[1..]));
    }
  }

  /** An array or object: the parts joined by commas, without spaces, between brackets. */
  function Bracket(open: string, parts: Result<seq<string>>, close: string): (r: Result<string>)
    ensures r.Ok? <==> parts.Ok?
    ensures (parts.Ok? && NoControl(open) && NoControl(close) &&
             forall i :: 0 <= i < |parts.value| ==> NoControl(parts.value[i])) ==> NoControl(r.value)
  {
    match parts
    case Ok(ps) =>
      if NoControl(open) && NoControl(close) && forall i :: 0 <= i < |ps| ==> NoControl(ps[i]) then
        JoinNoControl(ps);
        NoControlAppend(open, PyStr.Join(",", ps));
        NoControlAppend(open + PyStr.Join(",", ps), close);
        Ok(open + PyStr.Join(",", ps) + close)
      else Ok(open + PyStr.Join(",", ps) + close)
    case Err(m) => Err(m)
  }

  /**
    `to_json(value)`. Encoding succeeds exactly for supported values; an
    unsupported one raises `TypeError` naming its type. Booleans are
    recognised before integers.
   */
  function ToJson(v: PyValue): (r: Result<string>)
    ensures r.Ok? <==> Supported(v)
    ensures r.Ok? ==> NoControl(r.value)
    decreases v, 1
  {
    match v
    case PyString(s) => Ok(Quoted(s))
    case PyNone => Ok("null")
    case PyBool(b) => Ok(if b then "true" else "false")
    case PyInt(i) => Ok(IntToString(i))
    case PyList(items) => ListJson(items)
    case PyDict(entries) => DictJson(entries)
    case PyOther(name) => Err("Cannot encode type " + name)
  }

  /** A list: its items' encodings, comma-separated without spaces, in square brackets. */
  function ListJson(items: seq<PyValue>): (r: Result<string>)
    ensures r.Ok? <==> forall i :: 0 <= i < |items| ==> Supported(items[i])
    ensures r.Ok? ==> NoControl(r.value)
    decreases PyList(items), 0
  {
    var rs := seq(|items|, k requires 0 <= k < |items| => ToJson(items[k]));
    assert forall k :: 0 <= k < |items| ==> (rs[k].Ok? <==> Supported(items[k]));
    BracketOfAll("[", rs, "]");
    Bracket("[", Gather(rs), "]")
  }

  /** An object: its members in ascending key order, comma-separated without spaces, in braces. */
  function DictJson(entries: seq<Entry>): (r: Result<string>)
    ensures r.Ok? <==> forall i :: 0 <= i < |entries| ==> Supported(entries[i].1)
    ensures r.Ok? ==> NoControl(r.value)
    decreases PyDict(entries), 0
  {
    var sorted := SortByKey(entries);
    SupportedSorted(entries, sorted);
    var rs := seq(|sorted|, k requires 0 <= k < |sorted| => Member(sorted[k].0, ToJson(sorted[k].1)));
    assert forall k :: 0 <= k < |sorted| ==> (rs[k].Ok? <==> Supported(sorted[k].1)) by {
      forall k | 0 <= k < |sorted|
        ensures rs[k].Ok? <==> Supported(sorted[k].1)
      {
        assert rs[k] == Member(sorted[k].0, ToJson(sorted[k].1));
      }
    }
    BracketOfAll("{", rs, "}");
    Bracket("{", Gather(rs), "}")
  }

  lemma BracketOfAll(open: string, rs: seq<Result<string>>, close: string)
    requires NoControl(open) && NoControl(close)
    requires forall k :: 0 <= k < |rs| && rs[k].Ok? ==> NoControl(rs[k].value)
    ensures Bracket(open, Gather(rs), close).Ok? <==> forall k :: 0 <= k < |rs| ==> rs[k].Ok?
    ensures Bracket(open, Gather(rs), close).Ok? ==> NoControl(Bracket(open, Gather(rs), close).value)
  {
  }

  lemma SupportedSorted(entries: seq<Entry>, sorted: seq<Entry>)
    requires multiset(sorted) == multiset(entries)
    ensures forall k :: 0 <= k < |sorted| ==> sorted[k] in entries
    ensures (forall i :: 0 <= i < |sorted| ==> Supported(sorted[i].1)) <==>
            (forall i :: 0 <= i < |entries| ==> Supported(entries[i].1))
  {
    assert forall i :: 0 <= i < |sorted| ==> sorted[i] in multiset(entries);
    assert forall i :: 0 <= i < |entries| ==> entries[i] in multiset(sorted);
  }

  /** `None`, `False`, `True` and integers; a boolean is never written as a number. */
  lemma ScalarEncodings(i: int, text: string)
    ensures ToJson(PyNone) == Ok("null")
    ensures ToJson(PyBool(false)) == Ok("false")
    ensures ToJson(PyBool(true)) == Ok("true")
    ensures ToJson(PyInt(i)) == Ok(IntToString(i)) && ParseInt(ToJson(PyInt(i)).value) == i
    ensures ToJson(PyString(text)) == Ok("\"" + JsQuote(text) + "\"")
  {
    IntRoundTrip(i);
  }

  /** Encoding a dict does not depend on the order its entries are listed in. */
  lemma DictOrderIrrelevant(a: seq<Entry>, b: seq<Entry>)
    requires multiset(a) == multiset(b)
    requires KeysDetermine(multiset(a))
    ensures ToJson(PyDict(a)) == ToJson(PyDict(b))
  {
    SortedUnique(SortByKey(a), SortByKey(b));
  }

  /**
    The list format: the encodings of the items, joined by commas without
    spaces, between square brackets.
   */
  lemma ListOfEncoded(items: seq<PyValue>, texts: seq<string>)
    requires |items| == |texts|
    requires forall k :: 0 <= k < |items| ==> ToJson(items[k]) == Ok(texts[k])
    ensures ToJson(PyList(items)) == Ok("[" + PyStr.Join(",", texts) + "]")
  {
    var rs := seq(|items|, k requires 0 <= k < |items| => ToJson(items[k]));
    assert Gather(rs).value == texts;
  }

  /**
    The object format: one `key:value` member per entry, the key quoted as a
    string, in ascending key order, joined by commas, between braces.
   */
  lemma DictOfEncoded(entries: seq<Entry>, sorted: seq<Entry>, vals: seq<string>, texts: seq<string>)
    requires SortByKey(entries) == sorted && |vals| == |sorted| && |texts| == |sorted|
    requires forall k :: 0 <= k < |sorted| ==> ToJson(sorted[k].1) == Ok(vals[k])
    requires forall k :: 0 <= k < |sorted| ==> texts[k] == Quoted(sorted[k].0) + ":" + vals[k]
    ensures ToJson(PyDict(entries)) == Ok("{" + PyStr.Join(",", texts) + "}")
  {
    var rs := seq(|sorted|, k requires 0 <= k < |sorted| => Member(sorted[k].0, ToJson(sorted[k].1)));
    assert Gather(rs).value == texts;
  }
}
