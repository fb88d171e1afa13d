/**
 * Line splitting, the five-column row parse and the key lists collected
 * while the dataset is read. Reading the file itself is not modelled: the
 * lines arrive as a sequence, and number parsing is a function parameter.
 */
module CsvReader {
  import opened Wrappers
  import opened OrderEntries

  /**
   * `std::string::npos` once the source has stored it in a `signed int`.
   * A search position of -1 is the same value converted back.
   */
  const NotFound: int := -1

  /** `s.find_first_of(c, pos)`: the first index at or after `pos` holding `c`. */
  function FindFirstOf(s: string, c: char, pos: int): (r: int)
    ensures r == NotFound || (0 <= pos <= r < |s| && s[r] == c)
    decreases |s| - pos
  {
    if pos < 0 || pos >= |s| then NotFound
    else if s[pos] == c then pos
    else FindFirstOf(s, c, pos + 1)
  }

  /** `s.find_first_not_of(c, pos)`: the first index at or after `pos` not holding `c`. */
  function FindFirstNotOf(s: string, c: char, pos: nat): (r: int)
    ensures r == NotFound || (pos <= r < |s| && s[r] != c)
    decreases |s| - pos
  {
    if pos >= |s| then NotFound
    else if s[pos] != c then pos
    else FindFirstNotOf(s, c, pos + 1)
  }

  /**
   * The fields read from index `start` on, as the loop of `tokenise` reads
   * them: a field runs up to the next separator, and reading stops at the
   * end of the line or at an empty field.
   */
  function FieldsAt(line: string, sep: char, start: nat): seq<string>
    decreases |line| - start
  {
    if start >= |line| || line[start] == sep then []
    else
      var end := FindFirstOf(line, sep, start);
      if end == NotFound then [line[start..]] else [line[start..end]] + FieldsAt(line, sep, end + 1)
  }

  /** What `tokenise` returns: leading separators are skipped, then fields are read. */
  function Tokens(line: string, sep: char): seq<string> {
    var start := FindFirstNotOf(line, sep, 0);
    if start == NotFound then [] else FieldsAt(line, sep, start)
  }

  /** Nothing before the index found holds `c`; when nothing is found, nothing from `pos` on does. */
  lemma {:induction false} FindFirstOfSkips(s: string, c: char, pos: nat)
    ensures FindFirstOf(s, c, pos) != NotFound ==> forall k :: pos <= k < FindFirstOf(s, c, pos) ==> s[k] != c
    ensures FindFirstOf(s, c, pos) == NotFound ==> forall k :: pos <= k < |s| ==> s[k] != c
    decreases |s| - pos
  {
    if pos < |s| && s[pos] != c {
      FindFirstOfSkips(s, c, pos + 1);
    }
  }

  lemma {:induction false} FindFirstNotOfSkips(s: string, c: char, pos: nat)
    ensures FindFirstNotOf(s, c, pos) != NotFound ==> forall k :: pos <= k < FindFirstNotOf(s, c, pos) ==> s[k] == c
    ensures FindFirstNotOf(s, c, pos) == NotFound ==> forall k :: pos <= k < |s| ==> s[k] == c
    decreases |s| - pos
  {
    if pos < |s| && s[pos] == c {
      FindFirstNotOfSkips(s, c, pos + 1);
    }
  }

  /** The first separator at or after `pos`, characterised. */
  lemma {:induction false} FindFirstOfIs(s: string, c: char, pos: nat, r: nat)
    requires pos <= r < |s| && s[r] == c
    requires forall k :: pos <= k < r ==> s[k] != c
    ensures FindFirstOf(s, c, pos) == r
    decreases r - pos
  {
    if pos < r {
      FindFirstOfIs(s, c, pos + 1, r);
    }
  }

  /** No separator at or after `pos`: the search fails. */
  lemma {:induction false} FindFirstOfNone(s: string, c: char, pos: nat)
    requires forall k :: pos <= k < |s| ==> s[k] != c
    ensures FindFirstOf(s, c, pos) == NotFound
    decreases |s| - pos
  {
    if pos < |s| {
      FindFirstOfNone(s, c, pos + 1);
    }
  }

  lemma {:induction false} FindFirstNotOfIs(s: string, c: char, pos: nat, r: nat)
    requires pos <= r < |s| && s[r] != c
    requires forall k :: pos <= k < r ==> s[k] == c
    ensures FindFirstNotOf(s, c, pos) == r
    decreases r - pos
  {
    if pos < r {
      FindFirstNotOfIs(s, c, pos + 1, r);
    }
  }

  lemma {:induction false} FindFirstNotOfNone(s: string, c: char, pos: nat)
    requires forall k :: pos <= k < |s| ==> s[k] == c
    ensures FindFirstNotOf(s, c, pos) == NotFound
    decreases |s| - pos
  {
    if pos < |s| {
      FindFirstNotOfNone(s, c, pos + 1);
    }
  }

  /** A field followed by a separator is read whole, and reading resumes after the separator. */
  lemma FieldsAtCons(line: string, sep: char, start: nat, end: nat)
    requires start < end < |line| && line[end] == sep
    requires forall k :: start <= k < end ==> line[k] != sep
    ensures FieldsAt(line, sep, start) == [line[start..end]] + FieldsAt(line, sep, end + 1)
  {
    FindFirstOfIs(line, sep, start, end);
  }

  /** A field running to the end of the line is the last one. */
  lemma FieldsAtLast(line: string, sep: char, start: nat)
    requires start < |line|
    requires forall k :: start <= k < |line| ==> line[k] != sep
    ensures FieldsAt(line, sep, start) == [line[start..]]
  {
    FindFirstOfNone(line, sep, start);
  }

  /** The token `tokenise` cuts at `start`: up to `end`, or to the end of the line when `end` is npos. */
  function TokenAt(line: string, start: nat, end: int): string
    requires start <= |line| && (end >= 0 ==> start <= end <= |line|)
  {
    if end >= 0 then line[start..end] else line[start..]
  }

  /**
   * The `do`/`while` loop of `tokenise` written as a function: from the
   * tokens taken so far and the position `start`, the tokens it returns.
   */
  function TokensLoop(line: string, sep: char, tokens: seq<string>, start: int): seq<string>
    requires -1 <= start <= |line|
    decreases |line| - start
  {
    var end := FindFirstOf(line, sep, start);
    if start == |line| || start == end then tokens
    else if end <= 0 then tokens + [TokenAt(line, start, end)]
    else TokensLoop(line, sep, tokens + [TokenAt(line, start, end)], end + 1)
  }

  /** From any position, the loop appends the fields read there to what it has taken. */
  lemma {:induction false} TokensLoopReadsFields(line: string, sep: char, tokens: seq<string>, start: nat)
    requires start <= |line|
    ensures TokensLoop(line, sep, tokens, start) == tokens + FieldsAt(line, sep, start)
    decreases |line| - start
  {
    var end := FindFirstOf(line, sep, start);
    if start == |line| || start == end {
      assert FieldsAt(line, sep, start) == [];
    } else {
      assert line[start] != sep;
      if end > 0 {
        TokensLoopReadsFields(line, sep, tokens + [line[start..end]], end + 1);
        ConcatAssoc(tokens, [line[start..end]], FieldsAt(line, sep, end + 1));
      }
    }
  }

  /** The loop, started where `tokenise` starts it, returns `Tokens`. */
  lemma TokensLoopIsTokens(line: string, sep: char)
    ensures TokensLoop(line, sep, [], FindFirstNotOf(line, sep, 0)) == Tokens(line, sep)
  {
    var start := FindFirstNotOf(line, sep, 0);
    if start != NotFound {
      TokensLoopReadsFields(line, sep, [], start);
      assert [] + FieldsAt(line, sep, start) == FieldsAt(line, sep, start);
    }
  }

  /** The `do`/`while` loop of `tokenise`, with the source's `start` and `end` indices. */
  method Tokenise(csvLine: string, separator: char) returns (tokens: seq<string>)
    ensures tokens == Tokens(csvLine, separator)
  {
    tokens := [];
    var start := FindFirstNotOf(csvLine, separator, 0);
    TokensLoopIsTokens(csvLine, separator);
    var end: int;
    while true
      invariant -1 <= start <= |csvLine|
      invariant TokensLoop(csvLine, separator, tokens, start) == Tokens(csvLine, separator)
      decreases |csvLine| - start
    {
      end := FindFirstOf(csvLine, separator, start);
      if start == |csvLine| || start == end {
        break;
      }
      var token := TokenAt(csvLine, start, end);
      tokens := tokens + [token];
      start := end + 1;
      if end <= 0 {
        break;
      }
    }
  }

  /** Writes fields back into one line, separated by `sep`. */
  function Join(fields: seq<string>, sep: char): string
    decreases |fields|
  {
    if |fields| == 0 then ""
    else if |fields| == 1 then fields[0]
    else fields[0] + [sep] + Join(fields[1..], sep)
  }

  /** Fields that `tokenise` can give back: not empty and free of the separator. */
  predicate PlainFields(fields: seq<string>, sep: char) {
    forall k :: 0 <= k < |fields| ==> |fields[k]| > 0 && sep !in fields[k]
  }

  /** A stretch of a line without the separator, not empty, is a plain field. */
  lemma PlainSlice(line: string, sep: char, start: nat, end: nat)
    requires start < end <= |line| && forall k :: start <= k < end ==> line[k] != sep
    ensures |line[start..end]| > 0 && sep !in line[start..end]
  {
    var token := line[start..end];
    forall k | 0 <= k < |token| ensures token[k] != sep {
      assert token[k] == line[start + k];
    }
  }

  lemma {:induction false} FieldsAtArePlain(line: string, sep: char, start: nat)
    ensures PlainFields(FieldsAt(line, sep, start), sep)
    decreases |line| - start
  {
    if start < |line| && line[start] != sep {
      var end := FindFirstOf(line, sep, start);
      FindFirstOfSkips(line, sep, start);
      if end == NotFound {
        FieldsAtLast(line, sep, start);
        PlainSlice(line, sep, start, |line|);
        assert line[start..|line|] == line[start..];
        PlainCons(line[start..], [], sep);
      } else {
        FieldsAtCons(line, sep, start, end);
        PlainSlice(line, sep, start, end);
        FieldsAtArePlain(line, sep, end + 1);
        PlainCons(line[start..end], FieldsAt(line, sep, end + 1), sep);
      }
    }
  }

  /** A plain field in front of plain fields gives plain fields. */
  lemma PlainCons(f: string, rest: seq<string>, sep: char)
    requires |f| > 0 && sep !in f && PlainFields(rest, sep)
    ensures PlainFields([f] + rest, sep)
  {
    var all := [f] + rest;
    forall k | 0 <= k < |all| ensures |all[k]| > 0 && sep !in all[k] {
      if k > 0 {
        assert all[k] == rest[k - 1];
      }
    }
  }

  /** `tokenise` never returns an empty token, nor one holding the separator. */
  lemma TokensArePlain(line: string, sep: char)
    ensures PlainFields(Tokens(line, sep), sep)
  {
    var start := FindFirstNotOf(line, sep, 0);
    if start != NotFound {
      FieldsAtArePlain(line, sep, start);
    }
  }

  /** Reading a line where one plain field is written gives that field, then carries on after it. */
  lemma FieldAt(s: string, sep: char, pos: nat, f: string)
    requires |f| > 0 && sep !in f
    requires pos + |f| <= |s| && s[pos..pos + |f|] == f
    ensures pos + |f| == |s| ==> FieldsAt(s, sep, pos) == [f]
    ensures pos + |f| < |s| && s[pos + |f|] == sep ==>
      FieldsAt(s, sep, pos) == [f] + FieldsAt(s, sep, pos + |f| + 1)
  {
    var e := pos + |f|;
    forall k | pos <= k < e ensures s[k] != sep {
      assert s[k] == f[k - pos];
      assert f[k - pos] in f;
    }
    assert s[pos] == f[0];
    if e == |s| {
      FindFirstOfNone(s, sep, pos);
      assert s[pos..] == f;
    } else if s[e] == sep {
      FindFirstOfIs(s, sep, pos, e);
    }
  }

  /** A line holding `f`, a separator and `rest` at `pos` holds each of the three in its place. */
  lemma SliceParts(s: string, sep: char, pos: nat, f: string, rest: string)
    requires pos + |f| + 1 + |rest| <= |s| && s[pos..pos + |f| + 1 + |rest|] == f + [sep] + rest
    ensures s[pos..pos + |f|] == f && s[pos + |f|] == sep
    ensures s[pos + |f| + 1..pos + |f| + 1 + |rest|] == rest
  {
    var w := s[pos..pos + |f| + 1 + |rest|];
    assert s[pos..pos + |f|] == w[..|f|];
    assert s[pos + |f|] == w[|f|];
    assert s[pos + |f| + 1..pos + |f| + 1 + |rest|] == w[|f| + 1..];
  }

  lemma ConcatAssoc<T>(a: seq<T>, b: seq<T>, c: seq<T>)
    ensures a + (b + c) == (a + b) + c
  {
  }

  /** The fields after the first of a plain list are plain. */
  lemma PlainTail(fields: seq<string>, sep: char)
    requires |fields| > 0 && PlainFields(fields, sep)
    ensures |fields[0]| > 0 && sep !in fields[0] && PlainFields(fields[1..], sep)
  {
    var tail := fields[1..];
    forall k | 0 <= k < |tail| ensures |tail[k]| > 0 && sep !in tail[k] {
      assert tail[k] == fields[k + 1];
    }
  }

  /**
   * Plain fields joined by the separator at `pos` of a line: the first
   * field, then a separator, then the join of the others.
   */
  lemma JoinParts(s: string, sep: char, pos: nat, fields: seq<string>, joined: string)
    requires |fields| > 1 && PlainFields(fields, sep) && joined == Join(fields, sep)
    requires pos + |joined| <= |s| && s[pos..pos + |joined|] == joined
    ensures |fields[0]| > 0 && sep !in fields[0] && PlainFields(fields[1..], sep)
    ensures s[pos..pos + |fields[0]|] == fields[0] && s[pos + |fields[0]|] == sep
    ensures var mid, rest := pos + |fields[0]| + 1, Join(fields[1..], sep);
      mid + |rest| == pos + |joined| && s[mid..mid + |rest|] == rest
    ensures fields == [fields[0]] + fields[1..]
  {
    PlainTail(fields, sep);
    var f, rest := fields[0], Join(fields[1..], sep);
    assert joined == f + [sep] + rest;
    SliceParts(s, sep, pos, f, rest);
  }

  /** A plain field and a separator in front of text that reads as `tail`, up to the end of the line. */
  lemma JoinConsWhole(s: string, sep: char, pos: nat, fields: seq<string>, mid: nat)
    requires |fields| > 1 && |fields[0]| > 0 && sep !in fields[0] && mid == pos + |fields[0]| + 1 && mid <= |s|
    requires s[pos..pos + |fields[0]|] == fields[0] && s[pos + |fields[0]|] == sep
    requires fields == [fields[0]] + fields[1..]
    requires FieldsAt(s, sep, mid) == fields[1..]
    ensures FieldsAt(s, sep, pos) == fields
  {
    FieldAt(s, sep, pos, fields[0]);
  }

  /** A plain field and a separator in front of text that reads as `tail`, then a separator. */
  lemma JoinConsThen(s: string, sep: char, pos: nat, fields: seq<string>, mid: nat, rest: string, end: nat)
    requires |fields| > 1 && |fields[0]| > 0 && sep !in fields[0] && mid == pos + |fields[0]| + 1
    requires mid + |rest| == end < |s| && s[end] == sep
    requires s[pos..pos + |fields[0]|] == fields[0] && s[pos + |fields[0]|] == sep
    requires fields == [fields[0]] + fields[1..]
    requires FieldsAt(s, sep, mid) == fields[1..] + FieldsAt(s, sep, mid + |rest| + 1)
    ensures FieldsAt(s, sep, pos) == fields + FieldsAt(s, sep, end + 1)
  {
    var f, tail, after := fields[0], fields[1..], FieldsAt(s, sep, end + 1);
    assert FieldsAt(s, sep, mid) == tail + after by {
      assert mid + |rest| + 1 == end + 1;
    }
    calc {
      FieldsAt(s, sep, pos);
      { FieldAt(s, sep, pos, f); }
      [f] + FieldsAt(s, sep, mid);
      [f] + (tail + after);
      { ConcatAssoc([f], tail, after); }
      fields + after;
    }
  }

  /** Plain fields joined by the separator and running to the end of the line read back whole. */
  lemma {:induction false} FieldsAtJoinWhole(s: string, sep: char, pos: nat, fields: seq<string>, joined: string)
    requires |fields| > 0 && PlainFields(fields, sep) && joined == Join(fields, sep)
    requires pos + |joined| == |s| && s[pos..pos + |joined|] == joined
    ensures FieldsAt(s, sep, pos) == fields
    decreases |fields|
  {
    if |fields| == 1 {
      PlainTail(fields, sep);
      assert joined == fields[0] && fields == [fields[0]];
      FieldAt(s, sep, pos, fields[0]);
    } else {
      JoinParts(s, sep, pos, fields, joined);
      var mid := pos + |fields[0]| + 1;
      FieldsAtJoinWhole(s, sep, mid, fields[1..], Join(fields[1..], sep));
      JoinConsWhole(s, sep, pos, fields, mid);
    }
  }

  /** One plain field followed by a separator reads back, then reading goes on. */
  lemma SingleThen(s: string, sep: char, pos: nat, fields: seq<string>, joined: string)
    requires |fields| == 1 && PlainFields(fields, sep) && joined == Join(fields, sep)
    requires pos + |joined| < |s| && s[pos..pos + |joined|] == joined && s[pos + |joined|] == sep
    ensures FieldsAt(s, sep, pos) == fields + FieldsAt(s, sep, pos + |joined| + 1)
  {
    var f := fields[0];
    PlainTail(fields, sep);
    assert joined == f && fields == [f];
    calc {
      FieldsAt(s, sep, pos);
      { FieldAt(s, sep, pos, f); }
      [f] + FieldsAt(s, sep, pos + |f| + 1);
      fields + FieldsAt(s, sep, pos + |joined| + 1);
    }
  }

  /** Plain fields joined by the separator and followed by a separator read back, then reading goes on. */
  lemma {:induction false} FieldsAtJoinThen(s: string, sep: char, pos: nat, fields: seq<string>, joined: string)
    requires |fields| > 0 && PlainFields(fields, sep) && joined == Join(fields, sep)
    requires pos + |joined| < |s| && s[pos..pos + |joined|] == joined && s[pos + |joined|] == sep
    ensures FieldsAt(s, sep, pos) == fields + FieldsAt(s, sep, pos + |joined| + 1)
    decreases |fields|
  {
    if |fields| == 1 {
      SingleThen(s, sep, pos, fields, joined);
    } else {
      JoinParts(s, sep, pos, fields, joined);
      var mid, rest := pos + |fields[0]| + 1, Join(fields[1..], sep);
      FieldsAtJoinThen(s, sep, mid, fields[1..], rest);
      JoinConsThen(s, sep, pos, fields, mid, rest, pos + |joined|);
    }
  }

  /**
   * Reading a line at a place where plain fields joined by the separator are
   * written gives those fields back, then carries on after them if a
   * separator follows.
   */
  lemma FieldsAtJoin(s: string, sep: char, pos: nat, fields: seq<string>, joined: string)
    requires |fields| > 0 && PlainFields(fields, sep) && joined == Join(fields, sep)
    requires pos + |joined| <= |s| && s[pos..pos + |joined|] == joined
    ensures pos + |joined| == |s| ==> FieldsAt(s, sep, pos) == fields
    ensures pos + |joined| < |s| && s[pos + |joined|] == sep ==>
      FieldsAt(s, sep, pos) == fields + FieldsAt(s, sep, pos + |joined| + 1)
  {
    if pos + |joined| == |s| {
      FieldsAtJoinWhole(s, sep, pos, fields, joined);
    } else if s[pos + |joined|] == sep {
      FieldsAtJoinThen(s, sep, pos, fields, joined);
    }
  }

  /** Round trip: a line made of plain fields splits back into exactly those fields. */
  lemma TokensOfJoin(fields: seq<string>, sep: char)
    requires |fields| > 0 && PlainFields(fields, sep)
    ensures Tokens(Join(fields, sep), sep) == fields
  {
    var line := Join(fields, sep);
    FieldsAtJoin(line, sep, 0, fields, Join(fields, sep));
    assert fields[0][0] != sep by { assert fields[0][0] in fields[0]; }
    assert |fields| > 1 ==> line == fields[0] + [sep] + Join(fields[1..], sep);
    assert line[0] == fields[0][0];
  }

  /** Splitting stops at the first empty field: whatever follows two separators is ignored. */
  lemma TokensStopAtEmptyField(fields: seq<string>, sep: char, rest: string)
    requires |fields| > 0 && PlainFields(fields, sep)
    ensures Tokens(Join(fields, sep) + [sep, sep] + rest, sep) == fields
  {
    var joined := Join(fields, sep);
    var line := joined + [sep, sep] + rest;
    assert line[0..|joined|] == joined;
    assert line[|joined|] == sep && line[|joined| + 1] == sep;
    FieldsAtJoin(line, sep, 0, fields, Join(fields, sep));
    assert fields[0][0] != sep by { assert fields[0][0] in fields[0]; }
    assert |fields| > 1 ==> joined == fields[0] + [sep] + Join(fields[1..], sep);
    assert line[0] == fields[0][0];
  }

  /** The last field of a line reads the same when a separator follows it. */
  lemma TrailingLast(line: string, sep: char, i: nat)
    requires i < |line| && forall k :: i <= k < |line| ==> line[k] != sep
    ensures FieldsAt(line + [sep], sep, i) == FieldsAt(line, sep, i)
  {
    var longer := line + [sep];
    forall j | i <= j < |line| ensures longer[j] != sep {
      assert longer[j] == line[j];
    }
    FieldsAtCons(longer, sep, i, |line|);
    FieldsAtLast(line, sep, i);
    assert longer[i..|line|] == line[i..] by {
      assert longer[..|line|] == line;
    }
    assert FieldsAt(longer, sep, |line| + 1) == [];
  }

  /** A field ended by a separator reads the same when a separator is added at the end of the line. */
  lemma TrailingCons(line: string, sep: char, i: nat, k: nat)
    requires i < k < |line| && line[k] == sep && forall j :: i <= j < k ==> line[j] != sep
    requires FieldsAt(line + [sep], sep, k + 1) == FieldsAt(line, sep, k + 1)
    ensures FieldsAt(line + [sep], sep, i) == FieldsAt(line, sep, i)
  {
    var longer := line + [sep];
    forall j | i <= j < k ensures longer[j] != sep {
      assert longer[j] == line[j];
    }
    assert longer[k] == line[k];
    assert longer[i..k] == line[i..k] by {
      assert longer[..|line|] == line;
    }
    calc {
      FieldsAt(longer, sep, i);
      { FieldsAtCons(longer, sep, i, k); }
      [longer[i..k]] + FieldsAt(longer, sep, k + 1);
      [line[i..k]] + FieldsAt(line, sep, k + 1);
      { FieldsAtCons(line, sep, i, k); }
      FieldsAt(line, sep, i);
    }
  }

  lemma {:induction false} FieldsAtIgnoreTrailingSeparator(line: string, sep: char, i: nat)
    requires i <= |line|
    ensures FieldsAt(line + [sep], sep, i) == FieldsAt(line, sep, i)
    decreases |line| - i
  {
    if i < |line| && line[i] != sep {
      var k := FindFirstOf(line, sep, i);
      FindFirstOfSkips(line, sep, i);
      if k == NotFound {
        TrailingLast(line, sep, i);
      } else {
        FieldsAtIgnoreTrailingSeparator(line, sep, k + 1);
        TrailingCons(line, sep, i, k);
      }
    } else {
      assert i < |line| ==> (line + [sep])[i] == line[i];
    }
  }

  /** A trailing separator adds no token: "a,b," splits like "a,b". */
  lemma TokensIgnoreTrailingSeparator(line: string, sep: char)
    ensures Tokens(line + [sep], sep) == Tokens(line, sep)
  {
    var longer := line + [sep];
    var start := FindFirstNotOf(line, sep, 0);
    FindFirstNotOfSkips(line, sep, 0);
    if start == NotFound {
      FindFirstNotOfNone(longer, sep, 0);
    } else {
      FindFirstNotOfIs(longer, sep, 0, start);
      FieldsAtIgnoreTrailingSeparator(line, sep, start);
    }
  }

  /** The last field of a line reads the same after a separator is put in front of the line. */
  lemma LeadingLast(line: string, sep: char, i: nat)
    requires i < |line| && forall k :: i <= k < |line| ==> line[k] != sep
    ensures FieldsAt([sep] + line, sep, i + 1) == FieldsAt(line, sep, i)
  {
    var longer := [sep] + line;
    forall j | i + 1 <= j < |longer| ensures longer[j] != sep {
      assert longer[j] == line[j - 1];
    }
    FieldsAtLast(longer, sep, i + 1);
    FieldsAtLast(line, sep, i);
    assert longer[i + 1..] == line[i..] by {
      assert longer[1..] == line;
    }
  }

  /** A field ended by a separator reads the same after a separator is put in front of the line. */
  lemma LeadingCons(line: string, sep: char, i: nat, k: nat)
    requires i < k < |line| && line[k] == sep && forall j :: i <= j < k ==> line[j] != sep
    requires FieldsAt([sep] + line, sep, k + 2) == FieldsAt(line, sep, k + 1)
    ensures FieldsAt([sep] + line, sep, i + 1) == FieldsAt(line, sep, i)
  {
    var longer := [sep] + line;
    forall j | i + 1 <= j < k + 1 ensures longer[j] != sep {
      assert longer[j] == line[j - 1];
    }
    assert longer[k + 1] == line[k];
    assert longer[i + 1..k + 1] == line[i..k] by {
      assert longer[1..] == line;
    }
    calc {
      FieldsAt(longer, sep, i + 1);
      { FieldsAtCons(longer, sep, i + 1, k + 1); }
      [longer[i + 1..k + 1]] + FieldsAt(longer, sep, k + 2);
      [line[i..k]] + FieldsAt(line, sep, k + 1);
      { FieldsAtCons(line, sep, i, k); }
      FieldsAt(line, sep, i);
    }
  }

  lemma {:induction false} FieldsAtIgnoreLeadingSeparator(line: string, sep: char, i: nat)
    requires i <= |line|
    ensures FieldsAt([sep] + line, sep, i + 1) == FieldsAt(line, sep, i)
    decreases |line| - i
  {
    if i < |line| && line[i] != sep {
      var k := FindFirstOf(line, sep, i);
      FindFirstOfSkips(line, sep, i);
      if k == NotFound {
        LeadingLast(line, sep, i);
      } else {
        FieldsAtIgnoreLeadingSeparator(line, sep, k + 1);
        LeadingCons(line, sep, i, k);
      }
    } else {
      assert i + 1 < |[sep] + line| ==> ([sep] + line)[i + 1] == line[i];
    }
  }

  /** Leading separators are skipped: ",a" splits like "a". */
  lemma TokensIgnoreLeadingSeparator(line: string, sep: char)
    ensures Tokens([sep] + line, sep) == Tokens(line, sep)
  {
    var longer := [sep] + line;
    var start := FindFirstNotOf(line, sep, 0);
    FindFirstNotOfSkips(line, sep, 0);
    if start == NotFound {
      FindFirstNotOfNone(longer, sep, 0);
    } else {
      FindFirstNotOfIs(longer, sep, 0, start + 1);
      FieldsAtIgnoreLeadingSeparator(line, sep, start);
    }
  }

  /** A trailing separator adds no token: "a,b," gives [a, b]. */
  lemma TrailingSeparatorExample()
    ensures Tokens("a,b,", ',') == ["a", "b"]
  {
    var fields := ["a", "b"];
    assert PlainFields(fields, ',');
    var line := Join(fields, ',');
    TokensOfJoin(fields, ',');
    TokensIgnoreTrailingSeparator(line, ',');
    assert line + [','] == "a,b,";
  }

  /** An empty field ends the split: "a,,b" gives [a]. */
  lemma EmptyFieldExample()
    ensures Tokens("a,,b", ',') == ["a"]
  {
    assert PlainFields(["a"], ',');
    TokensStopAtEmptyField(["a"], ',', "b");
    assert Join(["a"], ',') + [',', ','] + "b" == "a,,b";
  }

  /** A product name splits into its two currencies: "ETH/BTC" gives [ETH, BTC]. */
  lemma PairExample()
    ensures Tokens("ETH/BTC", '/') == ["ETH", "BTC"]
  {
    assert PlainFields(["ETH", "BTC"], '/');
    TokensOfJoin(["ETH", "BTC"], '/');
    assert Join(["ETH", "BTC"], '/') == "ETH/BTC";
  }

  /** The examples the splitter is known for. */
  lemma TokensExamples()
    ensures Tokens("a,b,", ',') == ["a", "b"]
    ensures Tokens("a,,b", ',') == ["a"]
    ensures Tokens("", ',') == []
    ensures Tokens(",,", ',') == []
    ensures Tokens("ETH/BTC", '/') == ["ETH", "BTC"]
  {
    TrailingSeparatorExample();
    EmptyFieldExample();
    PairExample();
    assert FindFirstNotOf(",,", ',', 0) == NotFound;
  }

  /** A product name that splits into a base and a quote currency. */
  predicate IsPair(product: string) {
    |Tokens(product, '/')| >= 2
  }

  /** `currs[0]` of a product name: the currency being bought or sold. */
  function Base(product: string): string
    requires |Tokens(product, '/')| >= 1
  {
    Tokens(product, '/')[0]
  }

  /** `currs[1]` of a product name: the currency prices are quoted in. */
  function Quote(product: string): string
    requires IsPair(product)
  {
    Tokens(product, '/')[1]
  }

  /** A product written as two plain currency names has them as base and quote. */
  lemma BaseQuoteOfPair(base: string, quote: string)
    requires |base| > 0 && '/' !in base && |quote| > 0 && '/' !in quote
    ensures var product := base + "/" + quote;
      IsPair(product) && Base(product) == base && Quote(product) == quote
  {
    var fields := [base, quote];
    assert PlainFields(fields, '/');
    TokensOfJoin(fields, '/');
    assert Join(fields, '/') == base + "/" + quote;
  }

  /** Why a dataset row was refused. */
  datatype RowError = WrongFieldCount | BadNumber

  /**
   * `stringsToOBE(tokens)`: a row needs exactly five fields, and fields 3
   * and 4 must read as numbers (`stod` is the parameter; a failure stands
   * for the exception `std::stod` throws).
   */
  function StringsToOBE(tokens: seq<string>, stod: string -> Option<real>): (r: Result<OrderBookEntry, RowError>)
    ensures |tokens| != 5 ==> r == Failure(WrongFieldCount)
    ensures r.Success? <==> |tokens| == 5 && stod(tokens[3]).Some? && stod(tokens[4]).Some?
    ensures r.Success? ==>
      && r.value.timestamp == tokens[0]
      && r.value.product == tokens[1]
      && r.value.orderType == StringToOrderBookType(tokens[2])
      && r.value.price == stod(tokens[3]).value
      && r.value.amount == stod(tokens[4]).value
      && r.value.priceDifference == 0.0
      && r.value.username == DatasetUser
      && r.value.orderStatus == InitialStatus
  {
    if |tokens| != 5 then Failure(WrongFieldCount)
    else
      match (stod(tokens[3]), stod(tokens[4]))
      case (Some(price), Some(amount)) =>
        Success(OrderBookEntry(price, amount, tokens[0], tokens[1], StringToOrderBookType(tokens[2])))
      case _ => Failure(BadNumber)
  }

  /**
   * The five-argument `stringsToOBE`: the price and amount texts go through
   * `stod`, the other arguments are copied, and defaults fill the rest.
   */
  function FieldsToOBE(priceString: string, amountString: string, timestamp: string, product: string,
                       orderType: OrderBookType, stod: string -> Option<real>): (r: Result<OrderBookEntry, RowError>)
    ensures r.Success? <==> stod(priceString).Some? && stod(amountString).Some?
    ensures r.Failure? ==> r.error == BadNumber
    ensures r.Success? ==>
      && r.value.price == stod(priceString).value
      && r.value.amount == stod(amountString).value
      && r.value.timestamp == timestamp
      && r.value.product == product
      && r.value.orderType == orderType
      && r.value.priceDifference == 0.0
      && r.value.username == DatasetUser
      && r.value.orderStatus == InitialStatus
  {
    match (stod(priceString), stod(amountString))
    case (Some(price), Some(amount)) => Success(OrderBookEntry(price, amount, timestamp, product, orderType))
    case _ => Failure(BadNumber)
  }

  /** The two overloads agree: a five-field row builds what its fields passed one by one build. */
  lemma RowOverloadsAgree(timestamp: string, product: string, side: string, priceString: string,
                          amountString: string, stod: string -> Option<real>)
    ensures StringsToOBE([timestamp, product, side, priceString, amountString], stod)
      == FieldsToOBE(priceString, amountString, timestamp, product, StringToOrderBookType(side), stod)
  {
  }

  /** Keys of a `std::map<std::string, …>` in iteration order: strictly increasing. */
  predicate StrictlySorted(keys: seq<string>) {
    forall i, j :: 0 <= i < j < |keys| ==> LexLess(keys[i], keys[j])
  }

  /** `map[k] = true` on a map seen through its ordered key list. */
  function InsertKey(keys: seq<string>, k: string): seq<string>
    decreases |keys|
  {
    if |keys| == 0 then [k]
    else if keys[0] == k then keys
    else if LexLess(k, keys[0]) then [k] + keys
    else [keys[0]] + InsertKey(keys[1..], k)
  }

  /** Inserting a key keeps the list strictly increasing and adds exactly that key. */
  lemma {:induction false} InsertKeyKeepsOrder(keys: seq<string>, k: string)
    requires StrictlySorted(keys)
    ensures StrictlySorted(InsertKey(keys, k))
    ensures forall x :: x in InsertKey(keys, k) <==> x in keys || x == k
    decreases |keys|
  {
    if |keys| == 0 {
    } else if keys[0] == k {
    } else if LexLess(k, keys[0]) {
      var r := [k] + keys;
      forall i, j | 0 <= i < j < |r| ensures LexLess(r[i], r[j]) {
        if i == 0 && j > 1 {
          LexLessTransitive(k, keys[0], keys[j - 1]);
        }
      }
    } else {
      LexLessTotal(k, keys[0]);
      InsertKeyKeepsOrder(keys[1..], k);
      var tail := InsertKey(keys[1..], k);
      forall j | 0 <= j < |tail| ensures LexLess(keys[0], tail[j]) {
        assert tail[j] in tail;
        if tail[j] != k {
          var m :| 0 <= m < |keys[1..]| && keys[1..][m] == tail[j];
          assert keys[m + 1] == tail[j];
        }
      }
      assert keys == [keys[0]] + keys[1..];
    }
  }

  /** The key list of a `std::map<std::string, bool>` after `map[n] = true` for each name in turn. */
  function SortedKeys(names: seq<string>): seq<string>
    decreases |names|
  {
    if |names| == 0 then [] else InsertKey(SortedKeys(names[..|names| - 1]), names[|names| - 1])
  }

  /** The flattened map holds every name once, in increasing order. */
  lemma {:induction false} SortedKeysSpec(names: seq<string>)
    ensures StrictlySorted(SortedKeys(names))
    ensures forall x :: x in SortedKeys(names) <==> x in names
    decreases |names|
  {
    if |names| > 0 {
      var init := names[..|names| - 1];
      SortedKeysSpec(init);
      InsertKeyKeepsOrder(SortedKeys(init), names[|names| - 1]);
      assert names == init + [names[|names| - 1]];
    }
  }

  /** The timestamp column of some rows. */
  function TimestampsOf(rows: seq<OrderBookEntry>): seq<string>
  {
    seq(|rows|, i requires 0 <= i < |rows| => rows[i].timestamp)
  }

  /** A name is among the timestamps of some rows exactly when one of the rows carries it. */
  lemma TimestampsOfMembers(rows: seq<OrderBookEntry>)
    ensures forall x :: x in TimestampsOf(rows) <==> exists e :: e in rows && e.timestamp == x
  {
    var r := TimestampsOf(rows);
    forall x | x in r ensures exists e :: e in rows && e.timestamp == x {
      var i :| 0 <= i < |r| && r[i] == x;
      assert rows[i] in rows && rows[i].timestamp == x;
    }
    forall x | exists e :: e in rows && e.timestamp == x ensures x in r {
      var e :| e in rows && e.timestamp == x;
      var i :| 0 <= i < |rows| && rows[i] == e;
      assert r[i] == x;
    }
  }

  /** The product column of some rows. */
  function ProductsOf(rows: seq<OrderBookEntry>): seq<string>
  {
    seq(|rows|, i requires 0 <= i < |rows| => rows[i].product)
  }

  /** A name is among the products of some rows exactly when one of the rows carries it. */
  lemma ProductsOfMembers(rows: seq<OrderBookEntry>)
    ensures forall x :: x in ProductsOf(rows) <==> exists e :: e in rows && e.product == x
  {
    var r := ProductsOf(rows);
    forall x | x in r ensures exists e :: e in rows && e.product == x {
      var i :| 0 <= i < |r| && r[i] == x;
      assert rows[i] in rows && rows[i].product == x;
    }
    forall x | exists e :: e in rows && e.product == x ensures x in r {
      var e :| e in rows && e.product == x;
      var i :| 0 <= i < |rows| && rows[i] == e;
      assert r[i] == x;
    }
  }

  /** The entries of `rows` with timestamp `t`, in order. */
  function RowsAt(rows: seq<OrderBookEntry>, t: string): (r: seq<OrderBookEntry>)
    ensures forall e :: e in r <==> e in rows && e.timestamp == t
    decreases |rows|
  {
    if |rows| == 0 then []
    else
      var init := rows[..|rows| - 1];
      assert rows == init + [rows[|rows| - 1]];
      RowsAt(init, t) + (if rows[|rows| - 1].timestamp == t then [rows[|rows| - 1]] else [])
  }

  /** `ordersByTimestamp[obe.timestamp].push_back(obe)` for each row in turn. */
  function Grouped(rows: seq<OrderBookEntry>): map<string, seq<OrderBookEntry>>
    decreases |rows|
  {
    if |rows| == 0 then map[]
    else
      var m := Grouped(rows[..|rows| - 1]);
      var e := rows[|rows| - 1];
      m[e.timestamp := (if e.timestamp in m then m[e.timestamp] else []) + [e]]
  }

  /** Each timestamp of the data has a group, and the group is the rows with that timestamp in file order. */
  lemma {:induction false} GroupedSpec(rows: seq<OrderBookEntry>)
    ensures forall t :: t in Grouped(rows) <==> t in TimestampsOf(rows)
    ensures forall t :: t in Grouped(rows) ==> Grouped(rows)[t] == RowsAt(rows, t)
    decreases |rows|
  {
    if |rows| > 0 {
      var init := rows[..|rows| - 1];
      var e := rows[|rows| - 1];
      GroupedSpec(init);
      assert TimestampsOf(rows) == TimestampsOf(init) + [e.timestamp];
      forall t | t in Grouped(rows) && t == e.timestamp && t !in Grouped(init)
        ensures RowsAt(init, t) == []
      {
        RowsAtAbsent(init, t);
      }
    }
  }

  /** No row with timestamp `t` means nothing is grouped under it. */
  lemma {:induction false} RowsAtAbsent(rows: seq<OrderBookEntry>, t: string)
    requires t !in TimestampsOf(rows)
    ensures RowsAt(rows, t) == []
    decreases |rows|
  {
    if |rows| > 0 {
      var init := rows[..|rows| - 1];
      assert TimestampsOf(rows) == TimestampsOf(init) + [rows[|rows| - 1].timestamp];
      RowsAtAbsent(init, t);
    }
  }

  /** What `readCSV` gathers from the lines it read. */
  datatype CsvData = CsvData(
    ordersByTimestamp: map<string, seq<OrderBookEntry>>,
    timestamps: seq<string>,
    products: seq<string>)

  /** The rows that parse, in file order; the others are dropped by the `catch`. */
  function ParsedRows(lines: seq<string>, stod: string -> Option<real>): seq<OrderBookEntry>
    decreases |lines|
  {
    if |lines| == 0 then []
    else
      var prefix := ParsedRows(lines[..|lines| - 1], stod);
      match StringsToOBE(Tokens(lines[|lines| - 1], ','), stod)
      case Success(e) => prefix + [e]
      case Failure(_) => prefix
  }

  /** Reading one more line adds its row when it parses. */
  lemma ParsedRowsSnoc(lines: seq<string>, stod: string -> Option<real>, n: nat)
    requires n < |lines|
    ensures StringsToOBE(Tokens(lines[n], ','), stod).Success? ==>
      ParsedRows(lines[..n + 1], stod) == ParsedRows(lines[..n], stod) + [StringsToOBE(Tokens(lines[n], ','), stod).value]
    ensures StringsToOBE(Tokens(lines[n], ','), stod).Failure? ==>
      ParsedRows(lines[..n + 1], stod) == ParsedRows(lines[..n], stod)
  {
    assert lines[..n + 1][..n] == lines[..n];
  }

  /** Grouping and key collection over the parsed rows. */
  function Collect(rows: seq<OrderBookEntry>): CsvData {
    CsvData(Grouped(rows), SortedKeys(TimestampsOf(rows)), SortedKeys(ProductsOf(rows)))
  }

  /** One more row: pushed onto its timestamp's group, and its timestamp and product inserted. */
  lemma CollectSnoc(rows: seq<OrderBookEntry>, e: OrderBookEntry)
    ensures var groups := Grouped(rows);
      Grouped(rows + [e]) == groups[e.timestamp := (if e.timestamp in groups then groups[e.timestamp] else []) + [e]]
    ensures SortedKeys(TimestampsOf(rows + [e])) == InsertKey(SortedKeys(TimestampsOf(rows)), e.timestamp)
    ensures SortedKeys(ProductsOf(rows + [e])) == InsertKey(SortedKeys(ProductsOf(rows)), e.product)
  {
    var after := rows + [e];
    assert after[..|after| - 1] == rows;
    assert TimestampsOf(after)[..|rows|] == TimestampsOf(rows);
    assert ProductsOf(after)[..|rows|] == ProductsOf(rows);
  }

  /**
   * `readCSV` after the file has been read into `lines`: each line is split
   * on commas and parsed; good rows are grouped by timestamp; the
   * timestamps and products come out sorted and without repeats.
   */
  method ReadCSV(lines: seq<string>, stod: string -> Option<real>) returns (data: CsvData)
    ensures data == Collect(ParsedRows(lines, stod))
    ensures var rows := ParsedRows(lines, stod);
      && StrictlySorted(data.timestamps)
      && StrictlySorted(data.products)
      && (forall t :: t in data.timestamps <==> t in TimestampsOf(rows))
      && (forall p :: p in data.products <==> p in ProductsOf(rows))
      && (forall t :: t in data.ordersByTimestamp <==> t in TimestampsOf(rows))
      && forall t :: t in data.ordersByTimestamp ==> data.ordersByTimestamp[t] == RowsAt(rows, t)
  {
    var ordersByTimestamp: map<string, seq<OrderBookEntry>> := map[];
    var timestampsMap: seq<string> := [];
    var prodMap: seq<string> := [];
    ghost var rows: seq<OrderBookEntry> := [];
    var n := 0;
    while n < |lines|
      invariant n <= |lines|
      invariant rows == ParsedRows(lines[..n], stod)
      invariant CsvData(ordersByTimestamp, timestampsMap, prodMap) == Collect(rows)
    {
      var tokens := Tokenise(lines[n], ',');
      var row := StringsToOBE(tokens, stod);
      ParsedRowsSnoc(lines, stod, n);
      if row.Success? {
        var obe := row.value;
        CollectSnoc(rows, obe);
        var group := if obe.timestamp in ordersByTimestamp then ordersByTimestamp[obe.timestamp] else [];
        ordersByTimestamp := ordersByTimestamp[obe.timestamp := group + [obe]];
        prodMap := InsertKey(prodMap, obe.product);
        timestampsMap := InsertKey(timestampsMap, obe.timestamp);
        rows := rows + [obe];
      }
      n := n + 1;
    }
    assert lines[..n] == lines;
    data := CsvData(ordersByTimestamp, timestampsMap, prodMap);
    SortedKeysSpec(TimestampsOf(rows));
    SortedKeysSpec(ProductsOf(rows));
    GroupedSpec(rows);
  }
}
