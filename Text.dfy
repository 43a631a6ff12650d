/** String operations of JavaScript that the outline parser, the text
    normaliser and the summariser rely on: `split`/`join` on a single
    separator, `trim`, decimal rendering (`String(n)`) and `parseInt` of a digit
    run, and `line.split(". ")[0]`.  Strings are sequences of characters; the
    model counts characters where JavaScript counts UTF-16 code units. */
module Text {

  /** Every character of `s` is an ASCII decimal digit (the class `\d`). */
  predicate IsDigit(c: char) { '0' <= c <= '9' }

  predicate AllDigits(s: string) { forall k :: 0 <= k < |s| ==> IsDigit(s[k]) }

  /** The whitespace and line-terminator characters that `String.prototype.trim`
      removes and that the regular-expression class `\s` matches. */
  predicate IsJsSpace(c: char)
  {
    c == '\t' || c == '\n' || c == '\U{000B}' || c == '\U{000C}' || c == '\r' || c == ' ' ||
    c == '\U{00A0}' || c == '\U{1680}' || ('\U{2000}' <= c <= '\U{200A}') ||
    c == '\U{2028}' || c == '\U{2029}' || c == '\U{202F}' || c == '\U{205F}' ||
    c == '\U{3000}' || c == '\U{FEFF}'
  }

  /** `s.startsWith(p)` */
  predicate StartsWith(s: string, p: string) { |p| <= |s| && s[..|p|] == p }

  /** `s.includes(b)`: `b` occurs somewhere in `s`. */
  ghost predicate Contains(s: string, b: string)
  {
    exists i :: OccursAt(s, b, i)
  }

  /** `b` occurs in `s` starting at index `i`. */
  predicate OccursAt(s: string, b: string, i: int)
  {
    0 <= i <= |s| - |b| && s[i..i + |b|] == b
  }

  lemma ContainsMiddle(x: string, b: string, y: string)
    ensures Contains(x + b + y, b)
  {
    var s := x + b + y;
    assert OccursAt(s, b, |x|);
  }

  lemma ContainsExtend(x: string, s: string, y: string, b: string)
    requires Contains(s, b)
    ensures Contains(x + s + y, b)
  {
    var i :| OccursAt(s, b, i);
    var t := x + s + y;
    assert t[|x| + i..|x| + i + |b|] == s[i..i + |b|];
    assert OccursAt(t, b, |x| + i);
  }

  /** Occurrence is transitive: a part of a part is a part. */
  lemma ContainsTrans(a: string, b: string, c: string)
    requires Contains(a, b) && Contains(b, c)
    ensures Contains(a, c)
  {
    var i :| OccursAt(a, b, i);
    var j :| OccursAt(b, c, j);
    forall k | 0 <= k < |c|
      ensures a[i + j + k] == c[k]
    {
      assert c[k] == b[j + k];
      assert b[j + k] == a[i + j + k];
    }
    assert a[i + j..i + j + |c|] == c;
    assert OccursAt(a, c, i + j);
  }

  /** The pieces written one after the other. */
  function Concat(pieces: seq<string>): string
  {
    if pieces == [] then "" else Concat(pieces[..|pieces| - 1]) + pieces[|pieces| - 1]
  }

  /** Writing fewer pieces gives a prefix of writing them all. */
  lemma {:induction false} ConcatPrefix(pieces: seq<string>, k: nat)
    requires k <= |pieces|
    ensures |Concat(pieces[..k])| <= |Concat(pieces)|
    ensures Concat(pieces[..k]) == Concat(pieces)[..|Concat(pieces[..k])|]
    decreases |pieces| - k
  {
    if k < |pieces| {
      var init := pieces[..|pieces| - 1];
      ConcatPrefix(init, k);
      assert init[..k] == pieces[..k];
      var p := Concat(init);
      assert Concat(pieces)[..|p|] == p;
    } else {
      assert pieces[..k] == pieces;
    }
  }

  /** Every piece occurs in the concatenation. */
  lemma {:induction false} ConcatContains(pieces: seq<string>, i: nat)
    requires i < |pieces|
    ensures Contains(Concat(pieces), pieces[i])
  {
    ConcatPrefix(pieces, i + 1);
    var upto := Concat(pieces[..i + 1]);
    assert pieces[..i + 1][..i] == pieces[..i];
    assert upto == Concat(pieces[..i]) + pieces[i];
    var all := Concat(pieces);
    var rest := all[|upto|..];
    assert all == upto + rest;
    ContainsMiddle(Concat(pieces[..i]), pieces[i], rest);
  }

  lemma AppendAssoc(a: string, b: string, c: string)
    ensures (a + b) + c == a + (b + c)
  {
  }

  // ---------------------------------------------------------------------------
  // split / join on one separator character
  // ---------------------------------------------------------------------------

  /** `s.split(sep)` for a one-character separator: the pieces between
      separators, so there is always at least one piece. */
  function Split(s: string, sep: char): seq<string>
    decreases |s|
  {
    if |s| == 0 then [""]
    else
      var rest := Split(s[1..], sep);
      if s[0] == sep then [""] + rest
      else if |rest| == 0 then [[s[0]]]
      else [[s[0]] + rest[0]] + rest[1..]
  }

  /** There is always at least one piece, and no piece holds the separator. */
  lemma {:induction false} SplitPieces(s: string, sep: char)
    ensures |Split(s, sep)| >= 1
    ensures forall k :: 0 <= k < |Split(s, sep)| ==> sep !in Split(s, sep)[k]
    decreases |s|
  {
    if |s| > 0 {
      SplitPieces(s[1..], sep);
    }
  }

  /** `pieces.join(sep)` */
  function Join(pieces: seq<string>, sep: string): string
  {
    if |pieces| == 0 then ""
    else if |pieces| == 1 then pieces[0]
    else pieces[0] + sep + Join(pieces[1..], sep)
  }

  /** Joining the pieces of a split gives back the original string. */
  lemma {:induction false} JoinSplit(s: string, sep: char)
    ensures Join(Split(s, sep), [sep]) == s
    decreases |s|
  {
    if |s| > 0 {
      var rest := Split(s[1..], sep);
      JoinSplit(s[1..], sep);
      if s[0] == sep {
        assert Split(s, sep) == [""] + rest;
        assert s == [sep] + s[1..];
      } else {
        var r := Split(s, sep);
        assert r == [[s[0]] + rest[0]] + rest[1..];
        if |rest| == 1 {
          assert s == [s[0]] + s[1..];
        } else {
          assert r[1..] == rest[1..];
          assert Join(rest, [sep]) == rest[0] + [sep] + Join(rest[1..], [sep]);
          assert s == [s[0]] + s[1..];
        }
      }
    }
  }

  lemma {:induction false} SplitPrefix(l: string, t: string, sep: char)
    requires sep !in l
    ensures Split(l + t, sep) == [l + Split(t, sep)[0]] + Split(t, sep)[1..]
    decreases |l|
  {
    if |l| > 0 {
      SplitPrefix(l[1..], t, sep);
      assert (l + t)[1..] == l[1..] + t;
      assert (l + t)[0] == l[0];
      assert [l[0]] + (l[1..] + Split(t, sep)[0]) == l + Split(t, sep)[0];
    } else {
      assert l + t == t;
      var r := Split(t, sep);
      assert l + r[0] == r[0];
      assert r == [r[0]] + r[1..];
    }
  }

  /** Splitting a join gives back the pieces, when no piece holds the separator. */
  lemma {:induction false} SplitJoin(pieces: seq<string>, sep: char)
    requires |pieces| >= 1
    requires forall k :: 0 <= k < |pieces| ==> sep !in pieces[k]
    ensures Split(Join(pieces, [sep]), sep) == pieces
    decreases |pieces|
  {
    if |pieces| == 1 {
      SplitPrefix(pieces[0], "", sep);
      assert pieces[0] + "" == pieces[0];
    } else {
      var tail := Join(pieces[1..], [sep]);
      SplitJoin(pieces[1..], sep);
      SplitPrefix(pieces[0], [sep] + tail, sep);
      assert pieces[0] + [sep] + tail == pieces[0] + ([sep] + tail);
      assert ([sep] + tail)[1..] == tail;
      assert Split([sep] + tail, sep) == [""] + pieces[1..];
      assert pieces[0] + "" == pieces[0];
      assert pieces == [pieces[0]] + pieces[1..];
    }
  }

  // ---------------------------------------------------------------------------
  // decimal numbers
  // ---------------------------------------------------------------------------

  function DigitChar(d: nat): char
    requires d < 10
  {
    ('0' as int + d) as char
  }

  /** `String(n)`: the decimal representation of `n`, no leading zero. */
  function NatToString(n: nat): (s: string)
    ensures |s| >= 1 && AllDigits(s)
    ensures |s| > 1 ==> s[0] != '0'
    decreases n
  {
    if n < 10 then [DigitChar(n)] else NatToString(n / 10) + [DigitChar(n % 10)]
  }

  /** `parseInt(s, 10)` of a run of decimal digits. */
  function DigitsValue(s: string): nat
    requires AllDigits(s)
  {
    if s == [] then 0
    else DigitsValue(s[..|s| - 1]) * 10 + (s[|s| - 1] as int - '0' as int)
  }

  /** Reading back the decimal rendering gives the number. */
  lemma {:induction false} NatToStringValue(n: nat)
    ensures DigitsValue(NatToString(n)) == n
    decreases n
  {
    if n >= 10 {
      NatToStringValue(n / 10);
      var s := NatToString(n);
      assert s[..|s| - 1] == NatToString(n / 10);
    }
  }

  // ---------------------------------------------------------------------------
  // trim
  // ---------------------------------------------------------------------------

  /** `s` without its leading whitespace. */
  function TrimStart(s: string): string
  {
    if |s| > 0 && IsJsSpace(s[0]) then TrimStart(s[1..]) else s
  }

  /** `s` without its trailing whitespace. */
  function TrimEnd(s: string): string
  {
    if |s| > 0 && IsJsSpace(s[|s| - 1]) then TrimEnd(s[..|s| - 1]) else s
  }

  /** `s.trim()`: `s` without its leading and trailing whitespace. */
  function Trim(s: string): string
  {
    TrimEnd(TrimStart(s))
  }

  /** TrimStart removes exactly the leading run of whitespace. */
  lemma {:induction false} TrimStartSlice(s: string)
    ensures var r := TrimStart(s);
            |r| <= |s| && r == s[|s| - |r|..] && (r == [] || !IsJsSpace(r[0])) &&
            forall k :: 0 <= k < |s| - |r| ==> IsJsSpace(s[k])
  {
    if |s| > 0 && IsJsSpace(s[0]) {
      TrimStartSlice(s[1..]);
    }
  }

  /** TrimEnd removes exactly the trailing run of whitespace. */
  lemma {:induction false} TrimEndSlice(s: string)
    ensures var r := TrimEnd(s);
            |r| <= |s| && r == s[..|r|] && (r == [] || !IsJsSpace(r[|r| - 1])) &&
            forall k :: |r| <= k < |s| ==> IsJsSpace(s[k])
  {
    if |s| > 0 && IsJsSpace(s[|s| - 1]) {
      TrimEndSlice(s[..|s| - 1]);
    }
  }

  /** `s.trim()` is the slice of `s` between its leading and trailing
      whitespace: it neither starts nor ends with whitespace, and everything
      cut off is whitespace. */
  lemma TrimSlice(s: string)
    ensures exists a, b :: 0 <= a <= b <= |s| && Trim(s) == s[a..b] &&
              (forall k :: (0 <= k < a || b <= k < |s|) ==> IsJsSpace(s[k]))
    ensures Trim(s) == [] || (!IsJsSpace(Trim(s)[0]) && !IsJsSpace(Trim(s)[|Trim(s)| - 1]))
  {
    var t := TrimStart(s);
    TrimStartSlice(s);
    TrimEndSlice(t);
    var a := |s| - |t|;
    var b := a + |TrimEnd(t)|;
    assert Trim(s) == s[a..b];
    assert forall k :: b <= k < |s| ==> s[k] == t[k - a];
  }

  // ---------------------------------------------------------------------------
  // line.split(". ")[0]
  // ---------------------------------------------------------------------------

  /** The separator ". " starts at index `k` of `s`. */
  predicate PeriodSpaceAt(s: string, k: int)
  {
    0 <= k && k + 1 < |s| && s[k] == '.' && s[k + 1] == ' '
  }

  /** `s.split(". ")[0]`: the text before the first ". ", or all of `s`. */
  function FirstSegment(s: string): (r: string)
    ensures |r| <= |s| && r == s[..|r|]
    ensures |r| == |s| || PeriodSpaceAt(s, |r|)
    ensures forall k :: 0 <= k < |r| ==> !PeriodSpaceAt(s, k)
  {
    if |s| < 2 then s
    else if s[0] == '.' && s[1] == ' ' then ""
    else
      var r := [s[0]] + FirstSegment(s[1..]);
      assert forall k :: 1 <= k < |r| ==> (PeriodSpaceAt(s, k) <==> PeriodSpaceAt(s[1..], k - 1));
      r
  }
}
