/**
 * The Ruby string operations the parser relies on, written out over
 * sequences of characters: String#strip, String#split (with a one-character
 * separator, with a positive limit, and without a pattern), the line split
 * of a response body, String#to_i, and the `/^…/` line-start match.
 */
module RubyStrings {
  import opened Wrappers

  /** Characters String#strip removes: space, \t, \n, \v, \f, \r and NUL. */
  predicate IsStripSpace(c: char) {
    c == ' ' || c == '\t' || c == '\n' || c == '\U{B}' || c == '\U{C}' || c == '\r' || c == '\0'
  }

  /** Characters String#split (no pattern) and String#to_i treat as whitespace. */
  predicate IsSpace(c: char) {
    c == ' ' || c == '\t' || c == '\n' || c == '\U{B}' || c == '\U{C}' || c == '\r'
  }

  predicate IsDigit(c: char) {
    '0' <= c <= '9'
  }

  predicate IsBlank(s: string) {
    forall i :: 0 <= i < |s| ==> IsStripSpace(s[i])
  }

  /** String#lstrip: the suffix left after the leading whitespace. */
  function LStrip(s: string): (r: string)
    ensures |r| <= |s| && r == s[|s| - |r|..]
    ensures forall i :: 0 <= i < |s| - |r| ==> IsStripSpace(s[i])
    ensures r == [] || !IsStripSpace(r[0])
  {
    if s != [] && IsStripSpace(s[0]) then
      var r := LStrip(s[1..]);
      assert s[1..][|s| - 1 - |r|..] == s[|s| - |r|..];
      r
    else s
  }

  /** String#rstrip: the prefix left before the trailing whitespace. */
  function RStrip(s: string): (r: string)
    ensures |r| <= |s| && r == s[..|r|]
    ensures forall i :: |r| <= i < |s| ==> IsStripSpace(s[i])
    ensures r == [] || !IsStripSpace(r[|r| - 1])
  {
    if s != [] && IsStripSpace(s[|s| - 1]) then RStrip(s[..|s| - 1]) else s
  }

  /** String#strip: empty exactly for blank strings, otherwise trimmed at both ends. */
  function Strip(s: string): (r: string)
    ensures r == [] <==> IsBlank(s)
    ensures r != [] ==> !IsStripSpace(r[0]) && !IsStripSpace(r[|r| - 1])
    ensures |r| <= |s|
  {
    var l := LStrip(s);
    var r := RStrip(l);
    r
  }

  /**
   * `strip` cuts a blank prefix and a blank suffix off `s` and keeps what
   * lies between, which starts and ends with a character it does not remove.
   */
  lemma StripSlice(s: string) returns (i: nat, j: nat)
    ensures i <= j <= |s| && Strip(s) == s[i..j]
    ensures forall k :: 0 <= k < i || j <= k < |s| ==> IsStripSpace(s[k])
    ensures i < j ==> !IsStripSpace(s[i]) && !IsStripSpace(s[j - 1])
  {
    var l := LStrip(s);
    var r := RStrip(l);
    i, j := |s| - |l|, |s| - |l| + |r|;
    TrimSlice(s, l, r);
  }

  /** A non-space-edged prefix `r` of a suffix `l` of `s`, where what they cut off is whitespace. */
  lemma TrimSlice(s: string, l: string, r: string)
    requires |l| <= |s| && l == s[|s| - |l|..] && forall k :: 0 <= k < |s| - |l| ==> IsStripSpace(s[k])
    requires l == [] || !IsStripSpace(l[0])
    requires |r| <= |l| && r == l[..|r|] && forall k :: |r| <= k < |l| ==> IsStripSpace(l[k])
    requires r == [] || !IsStripSpace(r[|r| - 1])
    ensures r == s[|s| - |l|..|s| - |l| + |r|]
    ensures forall k :: 0 <= k < |s| - |l| || |s| - |l| + |r| <= k < |s| ==> IsStripSpace(s[k])
    ensures |r| > 0 ==> !IsStripSpace(s[|s| - |l|]) && !IsStripSpace(s[|s| - |l| + |r| - 1])
  {
    var i := |s| - |l|;
    assert forall k :: 0 <= k < |l| ==> l[k] == s[i + k];
    assert forall k :: 0 <= k < |r| ==> r[k] == l[k];
  }

  /** The first position at or after `from` that holds `c`, or `|s|` when there is none. */
  function Find(s: string, c: char, from: nat): (r: nat)
    requires from <= |s|
    ensures from <= r <= |s|
    decreases |s| - from
  {
    if from == |s| || s[from] == c then from else Find(s, c, from + 1)
  }

  lemma {:induction false} FindSpec(s: string, c: char, from: nat)
    requires from <= |s|
    ensures var r := Find(s, c, from);
      (r == |s| || s[r] == c) && forall j :: from <= j < r ==> s[j] != c
    decreases |s| - from
  {
    if from < |s| && s[from] != c {
      FindSpec(s, c, from + 1);
    }
  }

  /** Array#join with a one-character separator. */
  function Join(fields: seq<string>, sep: char): string
    requires |fields| > 0
  {
    if |fields| == 1 then fields[0] else fields[0] + [sep] + Join(fields[1..], sep)
  }

  /**
   * String#split with a one-character pattern and a positive `limit`, for a
   * non-empty string: split at the first `limit - 1` separators, keeping
   * empty fields.
   */
  function SplitN(s: string, sep: char, limit: nat): (r: seq<string>)
    requires limit >= 1
    ensures 1 <= |r| <= limit
    decreases limit
  {
    var i := Find(s, sep, 0);
    if limit == 1 || i == |s| then [s]
    else [s[..i]] + SplitN(s[i + 1..], sep, limit - 1)
  }

  /** Joining the fields again with the separator gives back the string. */
  lemma {:induction false} SplitNJoin(s: string, sep: char, limit: nat)
    requires limit >= 1
    ensures Join(SplitN(s, sep, limit), sep) == s
    decreases limit
  {
    var i := Find(s, sep, 0);
    FindSpec(s, sep, 0);
    if limit > 1 && i < |s| {
      SplitNJoin(s[i + 1..], sep, limit - 1);
      assert ([s[..i]] + SplitN(s[i + 1..], sep, limit - 1))[1..] == SplitN(s[i + 1..], sep, limit - 1);
      assert s == s[..i] + [sep] + s[i + 1..];
    }
  }

  /** No field but the last holds the separator, nor the last one either when fewer than `limit` came out. */
  lemma SplitNFields(s: string, sep: char, limit: nat)
    requires limit >= 1
    ensures var r := SplitN(s, sep, limit);
      (forall k :: 0 <= k < |r| - 1 ==> sep !in r[k]) && (|r| < limit ==> sep !in r[|r| - 1])
  {
    forall k | 0 <= k < |SplitN(s, sep, limit)| && (k < |SplitN(s, sep, limit)| - 1 || |SplitN(s, sep, limit)| < limit)
      ensures sep !in SplitN(s, sep, limit)[k]
    {
      SplitNField(s, sep, limit, k);
    }
  }

  lemma {:induction false} SplitNField(s: string, sep: char, limit: nat, k: nat)
    requires limit >= 1 && k < |SplitN(s, sep, limit)|
    requires k < |SplitN(s, sep, limit)| - 1 || |SplitN(s, sep, limit)| < limit
    ensures sep !in SplitN(s, sep, limit)[k]
    decreases limit
  {
    var i := Find(s, sep, 0);
    FindSpec(s, sep, 0);
    if limit > 1 && i < |s| && k > 0 {
      SplitNField(s[i + 1..], sep, limit - 1, k - 1);
    }
  }

  /** String#split with a one-character pattern and no limit, before trailing empty fields are dropped. */
  function SplitAll(s: string, sep: char): (r: seq<string>)
    ensures |r| >= 1
    decreases |s|
  {
    var i := Find(s, sep, 0);
    if i == |s| then [s] else [s[..i]] + SplitAll(s[i + 1..], sep)
  }

  /** Joining the fields again with the separator gives back the string; no field holds the separator. */
  lemma {:induction false} SplitAllJoin(s: string, sep: char)
    ensures Join(SplitAll(s, sep), sep) == s
    ensures forall k :: 0 <= k < |SplitAll(s, sep)| ==> sep !in SplitAll(s, sep)[k]
    decreases |s|
  {
    var i := Find(s, sep, 0);
    FindSpec(s, sep, 0);
    if i < |s| {
      var rest := SplitAll(s[i + 1..], sep);
      SplitAllJoin(s[i + 1..], sep);
      assert ([s[..i]] + rest)[1..] == rest;
      assert s == s[..i] + [sep] + s[i + 1..];
      assert forall k :: 0 <= k < |rest| ==> ([s[..i]] + rest)[k + 1] == rest[k];
    }
  }

  /** A string without the separator is its own only field. */
  lemma SplitAllNoSep(s: string, sep: char)
    requires sep !in s
    ensures SplitAll(s, sep) == [s]
  {
    FindSpec(s, sep, 0);
  }

  /** The first separator ends the first field. */
  lemma SplitAllFirst(a: string, b: string, sep: char)
    requires sep !in a
    ensures SplitAll(a + [sep] + b, sep) == [a] + SplitAll(b, sep)
  {
    var s := a + [sep] + b;
    var i := Find(s, sep, 0);
    FindSpec(s, sep, 0);
    assert s[|a|] == sep;
    assert s[..i] == a && s[i + 1..] == b;
  }

  /** Ruby's split without a positive limit drops the trailing empty fields. */
  function DropTrailingEmpty(fields: seq<string>): (r: seq<string>)
    ensures |r| <= |fields| && r == fields[..|r|]
    ensures r == [] || r[|r| - 1] != []
    ensures forall i :: |r| <= i < |fields| ==> fields[i] == []
  {
    if fields != [] && fields[|fields| - 1] == [] then DropTrailingEmpty(fields[..|fields| - 1]) else fields
  }

  /** `str.split(/\t/, 7)`: no field for the empty string, at most seven otherwise. */
  function TabFields(row: string): (r: seq<string>)
    ensures row == [] <==> r == []
    ensures |r| <= 7
  {
    if row == [] then [] else SplitN(row, '\t', 7)
  }

  /** `str.split(':')`. */
  function ColonFields(s: string): seq<string> {
    DropTrailingEmpty(SplitAll(s, ':'))
  }

  lemma ColonFieldsNoColon(s: string)
    ensures forall i :: 0 <= i < |ColonFields(s)| ==> ':' !in ColonFields(s)[i]
  {
    SplitAllJoin(s, ':');
  }

  function ChompCR(line: string): string {
    if line != [] && line[|line| - 1] == '\r' then line[..|line| - 1] else line
  }

  /** Every field but the last loses one trailing `\r`. */
  function ChompInner(fields: seq<string>): (r: seq<string>)
    ensures |r| == |fields|
  {
    if |fields| <= 1 then fields else [ChompCR(fields[0])] + ChompInner(fields[1..])
  }

  /** `body.split(/\r?\n/)`: one `\r` before each line break belongs to the break. */
  function Lines(body: string): (r: seq<string>)
    ensures r == [] || r[|r| - 1] != []
  {
    DropTrailingEmpty(ChompInner(SplitAll(body, '\n')))
  }

  /** Chomping a field keeps it free of a character it was free of. */
  lemma {:induction false} ChompInnerFree(fields: seq<string>, c: char)
    requires forall i :: 0 <= i < |fields| ==> c !in fields[i]
    ensures forall i :: 0 <= i < |fields| ==> c !in ChompInner(fields)[i]
  {
    if |fields| > 1 {
      ChompInnerFree(fields[1..], c);
      var f := fields[0];
      if f != [] && f[|f| - 1] == '\r' {
        assert forall j :: 0 <= j < |f| - 1 ==> f[..|f| - 1][j] == f[j];
      }
    }
  }

  predicate EndsWithCR(line: string) {
    line != [] && line[|line| - 1] == '\r'
  }

  /** The fields of ChompInner: every one but the last without its trailing `\r`. */
  lemma {:induction false} ChompInnerAt(fields: seq<string>, k: nat)
    requires k < |fields|
    ensures ChompInner(fields)[k] == if k < |fields| - 1 then ChompCR(fields[k]) else fields[k]
  {
    if |fields| > 1 && k > 0 {
      ChompInnerAt(fields[1..], k - 1);
    }
  }

  /**
   * `body.split(/\r?\n/)` against the pieces between the body's line breaks:
   * row `k` is piece `k`, less the one `\r` that sits before a break, and the
   * pieces past the last row are empty lines that the split drops.
   */
  lemma LinesRoundTrip(body: string) returns (pieces: seq<string>)
    ensures |pieces| >= 1 && Join(pieces, '\n') == body
    ensures forall k :: 0 <= k < |pieces| ==> '\n' !in pieces[k]
    ensures |Lines(body)| <= |pieces|
    ensures forall k :: 0 <= k < |Lines(body)| ==>
      pieces[k] == Lines(body)[k] + (if k < |pieces| - 1 && EndsWithCR(pieces[k]) then "\r" else "")
    ensures forall k :: |Lines(body)| <= k < |pieces| ==> pieces[k] == "" || (k < |pieces| - 1 && pieces[k] == "\r")
  {
    pieces := SplitAll(body, '\n');
    SplitAllJoin(body, '\n');
    var chomped := ChompInner(pieces);
    var rows := Lines(body);
    forall k | 0 <= k < |pieces|
      ensures k < |rows| ==> pieces[k] == rows[k] + (if k < |pieces| - 1 && EndsWithCR(pieces[k]) then "\r" else "")
      ensures |rows| <= k ==> pieces[k] == "" || (k < |pieces| - 1 && pieces[k] == "\r")
    {
      ChompInnerAt(pieces, k);
      if k < |rows| {
        assert rows[k] == chomped[k];
      }
    }
  }

  /** No line of the body holds a line break. */
  lemma LinesHaveNoBreak(body: string)
    ensures forall i :: 0 <= i < |Lines(body)| ==> '\n' !in Lines(body)[i]
  {
    SplitAllJoin(body, '\n');
    ChompInnerFree(SplitAll(body, '\n'), '\n');
  }

  /** `s =~ /^prefix/`: some line of `s` starts with `prefix`. */
  predicate HasLineStarting(s: string, prefix: string) {
    exists p :: 0 <= p <= |s| && (p == 0 || s[p - 1] == '\n') && prefix <= s[p..]
  }

  /** The end of the run of non-whitespace characters that starts at `i`. */
  function WordEnd(s: string, i: nat): (r: nat)
    requires i <= |s|
    ensures i <= r <= |s| && (r == |s| || IsSpace(s[r]))
    ensures forall j :: i <= j < r ==> !IsSpace(s[j])
    decreases |s| - i
  {
    if i < |s| && !IsSpace(s[i]) then WordEnd(s, i + 1) else i
  }

  /** String#split without a pattern: the maximal runs of non-whitespace. */
  function Words(s: string): (r: seq<string>)
    ensures forall k :: 0 <= k < |r| ==> r[k] != [] && forall j :: 0 <= j < |r[k]| ==> !IsSpace(r[k][j])
    decreases |s|
  {
    if s == [] then []
    else if IsSpace(s[0]) then Words(s[1..])
    else
      var k := WordEnd(s, 0);
      [s[..k]] + Words(s[k..])
  }

  /** Each word is a slice of `s` with whitespace or an end of `s` on either side: a maximal run. */
  lemma {:induction false} WordAt(s: string, k: nat) returns (b: nat, e: nat)
    requires k < |Words(s)|
    ensures b < e <= |s| && Words(s)[k] == s[b..e]
    ensures (b == 0 || IsSpace(s[b - 1])) && (e == |s| || IsSpace(s[e]))
    decreases |s|
  {
    if IsSpace(s[0]) {
      var b', e' := WordAt(s[1..], k);
      ShiftedSlice(s, 1, b', e');
      b, e := b' + 1, e' + 1;
    } else {
      var m := WordEnd(s, 0);
      if k == 0 {
        b, e := 0, m;
      } else {
        var rest := s[m..];
        assert Words(s)[k] == Words(rest)[k - 1];
        var b', e' := WordAt(rest, k - 1);
        ShiftedSlice(s, m, b', e');
        assert rest[b'] == Words(rest)[k - 1][0];
        b, e := b' + m, e' + m;
      }
    }
  }

  /** Positions in a suffix `s[d..]` are positions in `s` moved by `d`. */
  lemma ShiftedSlice<T>(s: seq<T>, d: nat, b: nat, e: nat)
    requires d <= |s| && b < e <= |s| - d
    ensures s[d..][b..e] == s[d + b..d + e] && s[d..][b] == s[d + b]
    ensures b > 0 ==> s[d..][b - 1] == s[d + b - 1]
    ensures e < |s| - d ==> s[d..][e] == s[d + e]
  {
  }

  /** The characters of `s` other than whitespace, in order. */
  function NonSpace(s: string): string {
    if s == [] then [] else (if IsSpace(s[0]) then [] else [s[0]]) + NonSpace(s[1..])
  }

  function Concat(ws: seq<string>): string {
    if ws == [] then [] else ws[0] + Concat(ws[1..])
  }

  lemma {:induction false} NonSpaceOfWord(w: string)
    requires forall j :: 0 <= j < |w| ==> !IsSpace(w[j])
    ensures NonSpace(w) == w
    decreases |w|
  {
    if w != [] {
      NonSpaceOfWord(w[1..]);
    }
  }

  lemma {:induction false} NonSpaceAppend(a: string, b: string)
    ensures NonSpace(a + b) == NonSpace(a) + NonSpace(b)
    decreases |a|
  {
    if a != [] {
      assert (a + b)[1..] == a[1..] + b;
      NonSpaceAppend(a[1..], b);
    } else {
      assert a + b == b;
    }
  }

  /** Splitting on whitespace loses only the whitespace: the words, put together, are the other characters. */
  lemma {:induction false} WordsKeepNonSpace(s: string)
    ensures Concat(Words(s)) == NonSpace(s)
    decreases |s|
  {
    if s == [] {
    } else if IsSpace(s[0]) {
      WordsKeepNonSpace(s[1..]);
    } else {
      var k := WordEnd(s, 0);
      WordsKeepNonSpace(s[k..]);
      assert s == s[..k] + s[k..];
      NonSpaceAppend(s[..k], s[k..]);
      NonSpaceOfWord(s[..k]);
      assert ([s[..k]] + Words(s[k..]))[1..] == Words(s[k..]);
    }
  }

  /** The end of the run of decimal digits that starts at `i`. */
  function DigitEnd(s: string, i: nat): (r: nat)
    requires i <= |s|
    ensures i <= r <= |s| && (r == |s| || !IsDigit(s[r]))
    ensures forall j :: i <= j < r ==> IsDigit(s[j])
    decreases |s| - i
  {
    if i < |s| && IsDigit(s[i]) then DigitEnd(s, i + 1) else i
  }

  /** The end of the run of whitespace that starts at `i`. */
  function SpaceEnd(s: string, i: nat): (r: nat)
    requires i <= |s|
    ensures i <= r <= |s| && (r == |s| || !IsSpace(s[r]))
    decreases |s| - i
  {
    if i < |s| && IsSpace(s[i]) then SpaceEnd(s, i + 1) else i
  }

  /** The value of a string of decimal digits. */
  function DigitsValue(d: string): nat
    requires forall j :: 0 <= j < |d| ==> IsDigit(d[j])
  {
    if d == [] then 0
    else
      assert IsDigit(d[|d| - 1]);
      DigitsValue(d[..|d| - 1]) * 10 + (d[|d| - 1] as int - '0' as int)
  }

  /**
   * String#to_i in base 10 for strings without underscores: leading
   * whitespace, an optional sign, then the longest run of digits; 0 when
   * there is none.
   */
  function ToI(s: string): int {
    var i := SpaceEnd(s, 0);
    var signed := i < |s| && (s[i] == '-' || s[i] == '+');
    var j := if signed then i + 1 else i;
    var k := DigitEnd(s, j);
    if signed && s[i] == '-' then -(DigitsValue(s[j..k]) as int) else DigitsValue(s[j..k])
  }

  /** Integer#to_s for naturals. */
  function ShowNat(n: nat): (r: string)
    ensures r != [] && forall j :: 0 <= j < |r| ==> IsDigit(r[j])
  {
    if n < 10 then ['0' + n as char] else ShowNat(n / 10) + ['0' + (n % 10) as char]
  }

  /** Integer#to_s. */
  function ShowInt(n: int): (r: string)
    ensures r != [] && forall j :: 0 <= j < |r| ==> IsDigit(r[j]) || r[j] == '-'
  {
    if n < 0 then "-" + ShowNat(-n) else ShowNat(n)
  }

  lemma {:induction false} ShowNatValue(n: nat)
    ensures DigitsValue(ShowNat(n)) == n
  {
    var r := ShowNat(n);
    if n >= 10 {
      ShowNatValue(n / 10);
      assert r[..|r| - 1] == ShowNat(n / 10);
    }
  }

  /** `n.to_s.to_i == n`: String#to_i reads back every integer Integer#to_s writes. */
  lemma {:induction false} ToIShowInt(n: int)
    ensures ToI(ShowInt(n)) == n
  {
    var m := if n < 0 then -n else n;
    var s, j := ShowInt(n), if n < 0 then 1 else 0;
    ShowNatValue(m);
    assert s[j..] == ShowNat(m);
    assert IsDigit(s[j]);
    DigitEndAll(s, j);
    assert SpaceEnd(s, 0) == 0;
    assert s[j..DigitEnd(s, j)] == ShowNat(m);
  }

  /** A run of digits that reaches the end of the string ends there. */
  lemma {:induction false} DigitEndAll(s: string, i: nat)
    requires i <= |s| && forall j :: i <= j < |s| ==> IsDigit(s[j])
    ensures DigitEnd(s, i) == |s|
    decreases |s| - i
  {
    if i < |s| {
      DigitEndAll(s, i + 1);
    }
  }

}
