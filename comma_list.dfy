/** The comma-separated text that carries a point's photo locations from the database to the
    map screen: the loading query aggregates them with SQLite's GROUP_CONCAT(uri, ',') and the
    screen takes them apart again with JavaScript's String.prototype.split(','). */
module CommaList {
  const COMMA: char := ','

  /** No part contains the separator. */
  predicate CommaFree(parts: seq<string>)
  {
    forall i :: 0 <= i < |parts| ==> COMMA !in parts[i]
  }

  /** GROUP_CONCAT(x, ','): the parts, in order, with one comma between neighbours.
      SQLite never aggregates an empty group into text (it yields NULL), so only
      non-empty lists are joined. */
  function Join(parts: seq<string>): (s: string)
    requires parts != []
    ensures parts[0] <= s
    ensures |parts| > 1 ==> COMMA in s
    ensures s == "" <==> parts == [""]
    decreases |parts|
  {
    if |parts| == 1 then parts[0]
    else
      var tail := Join(parts[1..]);
      assert (parts[0] + [COMMA] + tail)[|parts[0]|] == COMMA;
      parts[0] + [COMMA] + tail
  }

  /** JavaScript's s.split(','): the maximal comma-free pieces of s, in order; n commas give
      n + 1 pieces, some of which may be empty, and "" gives [""]. */
  function Split(s: string): (parts: seq<string>)
    ensures parts != []
    ensures CommaFree(parts)
    ensures |parts| <= |s| + 1
  {
    if |s| == 0 then [""]
    else
      var rest := Split(s[1..]);
      if s[0] == COMMA then [""] + rest
      else [[s[0]] + rest[0]] + rest[1..]
  }

  /** Splitting loses nothing: joining the pieces gives back the text. */
  lemma {:induction false} JoinSplit(s: string)
    ensures Join(Split(s)) == s
    decreases |s|
  {
    if |s| > 0 {
      var rest := Split(s[1..]);
      JoinSplit(s[1..]);
      if s[0] == COMMA {
        assert Split(s) == [""] + rest;
        assert ([""] + rest)[1..] == rest;
        assert s == [COMMA] + s[1..];
      } else if |rest| == 1 {
        assert Split(s) == [[s[0]] + rest[0]];
        assert s == [s[0]] + s[1..];
      } else {
        var parts := [[s[0]] + rest[0]] + rest[1..];
        assert Split(s) == parts;
        assert parts[1..] == rest[1..];
        assert Join(parts) == [s[0]] + rest[0] + [COMMA] + Join(rest[1..]);
        assert Join(rest) == rest[0] + [COMMA] + Join(rest[1..]);
        assert s == [s[0]] + s[1..];
      }
    }
  }

  /** Comma-free text is a single piece. */
  lemma {:induction false} SplitCommaFree(a: string)
    requires COMMA !in a
    ensures Split(a) == [a]
    decreases |a|
  {
    if |a| > 0 {
      assert COMMA !in a[1..] by {
        forall k | 0 <= k < |a[1..]| ensures a[1..][k] != COMMA { assert a[1..][k] == a[k + 1]; }
      }
      SplitCommaFree(a[1..]);
      assert a == [a[0]] + a[1..];
    }
  }

  /** A comma-free head followed by a comma splits off as the first piece. */
  lemma {:induction false} SplitAfterHead(a: string, t: string)
    requires COMMA !in a
    ensures Split(a + [COMMA] + t) == [a] + Split(t)
    decreases |a|
  {
    var s := a + [COMMA] + t;
    if |a| == 0 {
      assert s == [COMMA] + t;
      assert s[1..] == t;
    } else {
      assert COMMA !in a[1..] by {
        forall k | 0 <= k < |a[1..]| ensures a[1..][k] != COMMA { assert a[1..][k] == a[k + 1]; }
      }
      SplitAfterHead(a[1..], t);
      assert s[1..] == a[1..] + [COMMA] + t;
      assert s[0] == a[0];
      assert [a[0]] + a[1..] == a;
    }
  }

  /** Joining comma-free parts and splitting the result gives back exactly the parts. */
  lemma {:induction false} SplitJoin(parts: seq<string>)
    requires parts != []
    requires CommaFree(parts)
    ensures Split(Join(parts)) == parts
    decreases |parts|
  {
    assert COMMA !in parts[0];
    if |parts| == 1 {
      SplitCommaFree(parts[0]);
    } else {
      assert CommaFree(parts[1..]) by {
        forall i | 0 <= i < |parts[1..]| ensures COMMA !in parts[1..][i] { assert parts[1..][i] == parts[i + 1]; }
      }
      SplitJoin(parts[1..]);
      SplitAfterHead(parts[0], Join(parts[1..]));
      assert [parts[0]] + parts[1..] == parts;
    }
  }
}
