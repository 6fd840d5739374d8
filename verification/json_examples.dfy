/**
  Worked encodings of the values the test suite of the JSON module writes:
  lists of flags, nested lists, and an object whose keys come out sorted.
 */
module JsonExamples {
  import opened Wrappers
  import PyStr
  import opened Json

  /** `[true,false]`. */
  lemma FlagListExample()
    ensures ToJson(PyList([PyBool(true), PyBool(false)])) == Ok("[true,false]")
  {
    var texts := ["true", "false"];
    ListOfEncoded([PyBool(true), PyBool(false)], texts);
    assert texts[1..] == ["false"];
    assert PyStr.Join(",", texts) == "true,false";
    assert "[" + "true,false" + "]" == "[true,false]";
  }

  /** `[1,2,[true,false]]`. */
  lemma NestedListExample()
    ensures ToJson(PyList([PyInt(1), PyInt(2), PyList([PyBool(true), PyBool(false)])])) == Ok("[1,2,[true,false]]")
  {
    FlagListExample();
    var items := [PyInt(1), PyInt(2), PyList([PyBool(true), PyBool(false)])];
    var texts := ["1", "2", "[true,false]"];
    SmallIntExamples();
    assert ToJson(items[0]) == Ok(texts[0]) && ToJson(items[1]) == Ok(texts[1]) && ToJson(items[2]) == Ok(texts[2]);
    ListOfEncoded(items, texts);
    NestedListJoin();
    assert "[" + "1,2,[true,false]" + "]" == "[1,2,[true,false]]";
  }

  lemma SmallIntExamples()
    ensures ToJson(PyInt(1)) == Ok("1") && ToJson(PyInt(2)) == Ok("2")
  {
    assert IntToString(1) == "1" && IntToString(2) == "2";
  }

  lemma NestedListJoin()
    ensures PyStr.Join(",", ["1", "2", "[true,false]"]) == "1,2,[true,false]"
  {
    var texts := ["1", "2", "[true,false]"];
    assert texts[1..] == ["2", "[true,false]"];
    assert texts[1..][1..] == ["[true,false]"];
    assert PyStr.Join(",", texts[1..]) == "2,[true,false]";
  }

  lemma PlainQuoted(s: string)
    requires forall i :: 0 <= i < |s| ==> !NeedsEscape(s[i])
    ensures Quoted(s) == "\"" + s + "\""
  {
  }

  /** The keys `one`, `two`, `other` sort as `one`, `other`, `two`. */
  lemma ExampleKeysOrdered()
    ensures Lt("one", "other") && Lt("other", "two") && Lt("one", "two")
    ensures !Lt("other", "one") && !Lt("two", "other") && !Lt("two", "one")
  {
    assert Lt("one", "other") by {
      assert "one"[1..] == "ne" && "other"[1..] == "ther";
    }
    assert Lt("other", "two");
    LtTransitive("one", "other", "two");
    LtAsymmetric("one", "other");
    LtAsymmetric("other", "two");
    LtAsymmetric("one", "two");
  }

  lemma ExampleKeysSort(a: PyValue, b: PyValue, c: PyValue)
    ensures SortByKey([("one", a), ("two", b), ("other", c)]) == [("one", a), ("other", c), ("two", b)]
  {
    var entries := [("one", a), ("two", b), ("other", c)];
    var sorted := [("one", a), ("other", c), ("two", b)];
    ExampleKeysOrdered();
    assert SortedByKey(sorted);
    assert multiset(entries) == multiset(sorted);
    assert KeysDetermine(multiset(sorted)) by {
      assert forall x :: x in multiset(sorted) ==> x == sorted[0] || x == sorted[1] || x == sorted[2];
    }
    SortedUnique(SortByKey(entries), sorted);
  }

  /**
    The object of the test suite, `{"one": ..., "two": ..., "other": ...}`,
    is written with its keys in the order `one`, `other`, `two`, whatever
    the values.
   */
  lemma DictExample(entries: seq<Entry>, a: PyValue, b: PyValue, c: PyValue, ta: string, tb: string, tc: string)
    requires entries == [("one", a), ("two", b), ("other", c)]
    requires ToJson(a) == Ok(ta) && ToJson(b) == Ok(tb) && ToJson(c) == Ok(tc)
    ensures ToJson(PyDict(entries))
      == Ok("{" + PyStr.Join(",", [Quoted("one") + ":" + ta, Quoted("other") + ":" + tc, Quoted("two") + ":" + tb]) + "}")
  {
    ExampleKeysSort(a, b, c);
    SortedExampleEncoding(entries, a, b, c, ta, tb, tc);
  }

  /** Any dictionary whose items sort to `one`, `other`, `two` is written in that order. */
  lemma SortedExampleEncoding(entries: seq<Entry>, a: PyValue, b: PyValue, c: PyValue, ta: string, tb: string, tc: string)
    requires ToJson(a) == Ok(ta) && ToJson(b) == Ok(tb) && ToJson(c) == Ok(tc)
    requires SortByKey(entries) == [("one", a), ("other", c), ("two", b)]
    ensures ToJson(PyDict(entries))
      == Ok("{" + PyStr.Join(",", [Quoted("one") + ":" + ta, Quoted("other") + ":" + tc, Quoted("two") + ":" + tb]) + "}")
  {
    DictOfThree(entries, "one", "other", "two", a, c, b, ta, tc, tb);
  }

  /** A dictionary of three items is written as its three members in key order. */
  lemma DictOfThree(entries: seq<Entry>, k0: string, k1: string, k2: string, v0: PyValue, v1: PyValue, v2: PyValue,
                    t0: string, t1: string, t2: string)
    requires SortByKey(entries) == [(k0, v0), (k1, v1), (k2, v2)]
    requires ToJson(v0) == Ok(t0) && ToJson(v1) == Ok(t1) && ToJson(v2) == Ok(t2)
    ensures ToJson(PyDict(entries))
      == Ok("{" + PyStr.Join(",", [Quoted(k0) + ":" + t0, Quoted(k1) + ":" + t1, Quoted(k2) + ":" + t2]) + "}")
  {
    var sorted := [(k0, v0), (k1, v1), (k2, v2)];
    var vals := [t0, t1, t2];
    var texts := [Quoted(k0) + ":" + t0, Quoted(k1) + ":" + t1, Quoted(k2) + ":" + t2];
    forall k | 0 <= k < 3
      ensures ToJson(sorted[k].1) == Ok(vals[k])
      ensures texts[k] == Quoted(sorted[k].0) + ":" + vals[k]
    {
      if k == 0 {
        assert sorted[k] == (k0, v0) && vals[k] == t0 && texts[k] == Quoted(k0) + ":" + t0;
      } else if k == 1 {
        assert sorted[k] == (k1, v1) && vals[k] == t1 && texts[k] == Quoted(k1) + ":" + t1;
      } else {
        assert sorted[k] == (k2, v2) && vals[k] == t2 && texts[k] == Quoted(k2) + ":" + t2;
      }
    }
    DictOfEncoded(entries, sorted, vals, texts);
  }

  /** `[null,0]`, the value stored under `other` in the test suite. */
  lemma NullZeroExample()
    ensures ToJson(PyList([PyNone, PyInt(0)])) == Ok("[null,0]")
  {
    var texts := ["null", "0"];
    assert IntToString(0) == "0";
    ListOfEncoded([PyNone, PyInt(0)], texts);
    assert texts[1..] == ["0"];
    assert PyStr.Join(",", texts) == "null,0";
    assert "[" + "null,0" + "]" == "[null,0]";
  }
}
