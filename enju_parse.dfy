/**
 * EnjuAccess::CGIAccessor#get_parse: turning the Enju server's CoNLL answer
 * for a sentence into 0-based tokens, the root index and character spans.
 * The HTTP request is the function `enju`, from the sentence sent to the
 * response received.
 */
module EnjuParse {
  import opened Wrappers
  import opened RubyStrings

  /** An argument of a token: its role and the 0-based index of the token it names. */
  datatype Arg = Arg(role: Option<string>, ref: int)

  /**
   * One token of the parse. `base`, `pos`, `cat` and `typ` are absent when
   * the row has too few columns, `args` when it has no seventh column.
   * `beg` and `end` are the span offsets in the stripped sentence.
   */
  datatype Token = Token(
    idx: int, lex: string, base: Option<string>, pos: Option<string>, cat: Option<string>,
    typ: Option<string>, args: Option<seq<Arg>>, beg: int, end: int)

  /** EnjuAccess::EnjuError, or any other StandardError raised while parsing. */
  datatype ParseError = EnjuError(message: string) | StandardError(message: string)

  /** What the Enju CGI server sends back: status, Content-Type header and body. */
  datatype Response = Response(code: int, contentType: Option<string>, body: string)

  const NotResponding := "Enju CGI server dose not respond."
  const EmptyInput := "Empty input."
  const HtmlInstead := "Enju CGI server returns html instead of tsv"
  const NilMethod := "undefined method for nil"

  /** Token indices are 0, 1, 2, … in order. */
  predicate Dense(tokens: seq<Token>) {
    forall k :: 0 <= k < |tokens| ==> tokens[k].idx == k
  }

  function Field(fields: seq<string>, k: nat): (r: Option<string>)
    ensures r.Some? <==> k < |fields|
    ensures r.Some? ==> r.value == fields[k]
  {
    if k < |fields| then Some(fields[k]) else None
  }

  /** `type, ref = a.split(':'); [type, ref.to_i - 1]`: a missing reference reads as 0. */
  function ParseArg(word: string): Arg {
    var f := ColonFields(word);
    Arg(Field(f, 0), (if |f| > 1 then ToI(f[1]) else 0) - 1)
  }

  /**
   * An argument written as its role, a colon and its 1-based reference reads
   * back as that role and the 0-based reference; the role may be empty.
   */
  lemma ParseArgWritten(role: string, n: int)
    requires ':' !in role
    ensures ParseArg(role + ":" + ShowInt(n + 1)) == Arg(Some(role), n)
  {
    var d := ShowInt(n + 1);
    assert ':' !in d by {
      forall j | 0 <= j < |d| ensures d[j] != ':' {
        assert IsDigit(d[j]) || d[j] == '-';
      }
    }
    assert role + ":" + d == role + [':'] + d;
    SplitAllFirst(role, d, ':');
    SplitAllNoSep(d, ':');
    ToIShowInt(n + 1);
  }

  /** A word without a colon is a role without reference: `nil.to_i - 1` is -1. */
  lemma ParseArgBare(word: string)
    requires word != [] && ':' !in word
    ensures ParseArg(word) == Arg(Some(word), -1)
  {
    SplitAllNoSep(word, ':');
  }

  function ParseArgs(words: seq<string>): (r: seq<Arg>)
    ensures |r| == |words| && forall k :: 0 <= k < |words| ==> r[k] == ParseArg(words[k])
  {
    seq(|words|, k requires 0 <= k < |words| => ParseArg(words[k]))
  }

  /**
   * Row `i` of the response, split into at most seven tab-separated columns `dat`; `idx` is
   * `i - 1`; fewer than two columns leaves `dat[1]` nil and raises.
   */
  function ParseRow(dat: seq<string>, i: int): (r: Result<Token, ParseError>)
    ensures r.Ok? <==> |dat| >= 2
    ensures r.Err? ==> r.error == StandardError(NilMethod)
    ensures r.Ok? ==> r.value.idx == i - 1 && r.value.lex == dat[1]
    ensures r.Ok? ==> (r.value.args.Some? <==> |dat| > 6)
    ensures r.Ok? ==> r.value.base == (if |dat| > 2 then Some(dat[2]) else None)
    ensures r.Ok? ==> r.value.pos == (if |dat| > 3 then Some(dat[3]) else None)
    ensures r.Ok? ==> r.value.cat == (if |dat| > 4 then Some(dat[4]) else None)
    ensures r.Ok? ==> r.value.typ == (if |dat| > 5 then Some(dat[5]) else None)
    ensures r.Ok? && |dat| > 6 ==> r.value.args == Some(ParseArgs(Words(dat[6])))
  {
    if |dat| < 2 then Err(StandardError(NilMethod))
    else Ok(Token(i - 1, dat[1], Field(dat, 2), Field(dat, 3), Field(dat, 4), Field(dat, 5),
                  if |dat| > 6 then Some(ParseArgs(Words(dat[6]))) else None, 0, 0))
  }

  /** The checks made on a response before its rows are read, in the order the source makes them. */
  function Rejection(resp: Response): (r: Option<ParseError>)
    ensures r.None? <==> resp.code == 200 && !HasLineStarting(resp.body, "Empty line") && resp.contentType != Some("text/html")
    ensures r.Some? ==> r.value.EnjuError?
  {
    if resp.code != 200 then Some(EnjuError(NotResponding))
    else if HasLineStarting(resp.body, "Empty line") then Some(EnjuError(EmptyInput))
    else if resp.contentType == Some("text/html") then Some(EnjuError(HtmlInstead))
    else None
  }

  /** The columns of every row. */
  function Table(rows: seq<string>): (r: seq<seq<string>>)
    ensures |r| == |rows|
  {
    seq(|rows|, i requires 0 <= i < |rows| => TabFields(rows[i]))
  }

  /** Every row has at least the two columns a token needs. */
  predicate AllRowsParse(table: seq<seq<string>>) {
    forall i :: 0 <= i < |table| ==> ParseRow(table[i], i).Ok?
  }

  /** `tokens.shift[:args][0][1]`: present only when the first row has a non-empty argument list. */
  function RootOf(table: seq<seq<string>>): (r: Option<int>)
    requires AllRowsParse(table)
    ensures r.Some? <==> |table| > 0 && |table[0]| > 6 && |Words(table[0][6])| > 0
  {
    if |table| == 0 then None
    else
      var t := ParseRow(table[0], 0).value;
      if t.args.Some? && |t.args.value| > 0 then Some(t.args.value[0].ref) else None
  }

  /** The characters the span scan skips: space, tab and newline only. */
  predicate IsGap(c: char) {
    c == ' ' || c == '\t' || c == '\n'
  }

  /** `i += 1 until sentence[i] !~ /[ \t\n]/`; past the end `sentence[i]` is nil and the scan stops. */
  function SkipGaps(s: string, i: nat): (r: nat)
    ensures r >= i && (r == i || r <= |s|)
    ensures forall j :: i <= j < r ==> IsGap(s[j])
    ensures r >= |s| || !IsGap(s[r])
    decreases |s| - i
  {
    if i < |s| && IsGap(s[i]) then SkipGaps(s, i + 1) else i
  }

  /** Where the span scan stands before token `k`: 0, then the end of the previous token. */
  function ScanStart(tokens: seq<Token>, k: nat): int
    requires k <= |tokens|
  {
    if k == 0 then 0 else tokens[k - 1].end
  }

  /** Token `k` of `tokens` is token `k` of `raw` given its span. */
  predicate SpanAt(s: string, raw: seq<Token>, tokens: seq<Token>, k: nat)
    requires k < |tokens| == |raw|
  {
    && ScanStart(tokens, k) >= 0
    && tokens[k].beg == SkipGaps(s, ScanStart(tokens, k))
    && tokens[k].end == tokens[k].beg + |raw[k].lex|
    && tokens[k] == raw[k].(beg := tokens[k].beg, end := tokens[k].end)
  }

  /**
   * `tokens` are `raw` with spans: each token starts at the first position at
   * or after the previous token's end that is not a gap, and ends its
   * length further on.
   */
  predicate Spanned(s: string, raw: seq<Token>, tokens: seq<Token>) {
    |tokens| == |raw| && forall k :: 0 <= k < |tokens| ==> SpanAt(s, raw, tokens, k)
  }

  /** The span loop of get_parse. */
  method AssignSpans(s: string, raw: seq<Token>) returns (tokens: seq<Token>)
    ensures Spanned(s, raw, tokens)
  {
    tokens := raw;
    var i: nat := 0;
    var k := 0;
    while k < |tokens|
      invariant 0 <= k <= |tokens| == |raw|
      invariant forall j :: k <= j < |tokens| ==> tokens[j] == raw[j]
      invariant i == ScanStart(tokens, k)
      invariant forall j :: 0 <= j < k ==> SpanAt(s, raw, tokens, j)
    {
      var b := SkipGaps(s, i);
      var t := tokens[k].(beg := b, end := b + |tokens[k].lex|);
      ghost var before := tokens;
      tokens := tokens[k := t];
      forall j | 0 <= j < k ensures SpanAt(s, raw, tokens, j) {
        assert SpanAt(s, raw, before, j);
        assert tokens[j] == before[j];
        assert ScanStart(tokens, j) == ScanStart(before, j);
      }
      assert SpanAt(s, raw, tokens, k);
      i := b + |t.lex|;
      k := k + 1;
    }
  }

  /** Spans come out in order and never overlap. */
  lemma {:induction false} SpansOrdered(s: string, raw: seq<Token>, tokens: seq<Token>, j: nat, k: nat)
    requires Spanned(s, raw, tokens)
    requires j < k < |tokens|
    ensures tokens[j].beg <= tokens[j].end <= tokens[k].beg <= tokens[k].end
    decreases k - j
  {
    assert SpanAt(s, raw, tokens, k);
    assert SpanAt(s, raw, tokens, j);
    if j < k - 1 {
      SpansOrdered(s, raw, tokens, j, k - 1);
      assert SpanAt(s, raw, tokens, k - 1);
    }
  }

  /** The tokens of all rows, before the root row is removed. */
  function RowTokens(table: seq<seq<string>>): (r: seq<Token>)
    requires AllRowsParse(table)
    ensures |r| == |table|
    ensures forall i :: 0 <= i < |table| ==> r[i].idx == i - 1
  {
    seq(|table|, i requires 0 <= i < |table| => ParseRow(table[i], i).value)
  }

  /** Reading the rows in order; the first row that cannot be read ends the parse. */
  function ReadRows(table: seq<seq<string>>): (r: Result<seq<Token>, ParseError>)
    decreases |table|
  {
    if table == [] then Ok([])
    else match ReadRows(table[..|table| - 1])
      case Err(e) => Err(e)
      case Ok(ts) =>
        match ParseRow(table[|table| - 1], |table| - 1)
        case Err(e) => Err(e)
        case Ok(t) => Ok(ts + [t])
  }

  /** Reading the rows succeeds exactly when every row can be read, and gives each row's token at its place. */
  lemma {:induction false} ReadRowsAll(table: seq<seq<string>>)
    ensures ReadRows(table).Ok? <==> AllRowsParse(table)
    ensures ReadRows(table).Ok? ==> ReadRows(table).value == RowTokens(table)
    ensures ReadRows(table).Err? ==> ReadRows(table).error == StandardError(NilMethod)
    decreases |table|
  {
    if table != [] {
      var n := |table| - 1;
      var init := table[..n];
      ReadRowsAll(init);
      if ReadRows(init).Ok? && ParseRow(table[n], n).Ok? {
        var ts := ReadRows(init).value;
        forall i | 0 <= i < |table| ensures ParseRow(table[i], i).Ok? && (ts + [ParseRow(table[n], n).value])[i] == RowTokens(table)[i] {
          if i < n {
            assert init[i] == table[i];
            assert ts[i] == RowTokens(init)[i];
          }
        }
      } else if ReadRows(init).Ok? {
        assert !ParseRow(table[n], n).Ok?;
      } else {
        var i :| 0 <= i < |init| && !ParseRow(init[i], i).Ok?;
        assert init[i] == table[i];
      }
    }
  }

  /** The `each_with_index` loop of get_parse: a row that cannot be read ends the parse. */
  method ParseRows(rows: seq<string>) returns (r: Result<seq<Token>, ParseError>)
    ensures r == ReadRows(Table(rows))
  {
    ghost var table := Table(rows);
    var parsed: seq<Token> := [];
    var i := 0;
    while i < |rows|
      invariant 0 <= i <= |rows|
      invariant ReadRows(table[..i]) == Ok(parsed)
    {
      assert table[..i + 1][..i] == table[..i];
      var row := ParseRow(TabFields(rows[i]), i);
      assert table[i] == TabFields(rows[i]);
      if row.Err? {
        assert ReadRows(table[..i + 1]) == Err(row.error);
        ReadRowsErrStays(table, i + 1);
        return Err(row.error);
      }
      parsed := parsed + [row.value];
      i := i + 1;
    }
    assert table[..i] == table;
    return Ok(parsed);
  }

  /** Once a prefix of the rows fails, reading all of them fails with the same error. */
  lemma {:induction false} ReadRowsErrStays(table: seq<seq<string>>, n: nat)
    requires n <= |table| && ReadRows(table[..n]).Err?
    ensures ReadRows(table) == ReadRows(table[..n])
    decreases |table| - n
  {
    if n < |table| {
      assert table[..n + 1][..n] == table[..n];
      ReadRowsErrStays(table, n + 1);
    } else {
      assert table[..n] == table;
    }
  }

  /**
   * get_parse. A missing or blank sentence gives no tokens and no root and
   * the server is not asked; otherwise the stripped sentence is sent, the
   * response is checked, every row becomes a token with index `i - 1`, the
   * first row is removed to give the root, and the others get spans.
   */
  /** A sentence get_parse answers without asking the server: nil, or nothing but whitespace. */
  predicate NoSentence(sentence: Option<string>) {
    sentence.None? || IsBlank(sentence.value)
  }

  /** The error get_parse raises for a sentence, when it raises one. */
  function ParseFailure(sentence: Option<string>, enju: string -> Response): Option<ParseError> {
    if NoSentence(sentence) then None
    else
      var resp := enju(Strip(sentence.value));
      var table := Table(Lines(resp.body));
      if Rejection(resp).Some? then Rejection(resp)
      else if !AllRowsParse(table) || RootOf(table).None? then Some(StandardError(NilMethod))
      else None
  }

  /** The root get_parse returns for a sentence it reads: the first row's first reference. */
  function ParsedRoot(sentence: Option<string>, enju: string -> Response): Option<int> {
    if NoSentence(sentence) then None
    else
      var table := Table(Lines(enju(Strip(sentence.value)).body));
      if AllRowsParse(table) then RootOf(table) else None
  }

  /** `tokens` are what get_parse returns for a sentence it reads: every row after the first, densely numbered and spanned. */
  predicate ParsedTokens(sentence: Option<string>, enju: string -> Response, tokens: seq<Token>) {
    if NoSentence(sentence) then tokens == []
    else
      var s := Strip(sentence.value);
      var table := Table(Lines(enju(s).body));
      && AllRowsParse(table) && |table| > 0
      && Dense(tokens) && Spanned(s, RowTokens(table)[1..], tokens)
  }

  method GetParse(sentence: Option<string>, enju: string -> Response)
    returns (r: Result<(seq<Token>, Option<int>), ParseError>)
    ensures sentence.None? || IsBlank(sentence.value) ==> r == Ok(([], None))
    ensures sentence.Some? && !IsBlank(sentence.value) ==>
      var s := Strip(sentence.value);
      var resp := enju(s);
      var table := Table(Lines(resp.body));
      if Rejection(resp).Some? then r == Err(Rejection(resp).value)
      else if !AllRowsParse(table) || RootOf(table).None? then r == Err(StandardError(NilMethod))
      else
        && r.Ok?
        && r.value.1 == RootOf(table)
        && Dense(r.value.0)
        && Spanned(s, RowTokens(table)[1..], r.value.0)
  {
    if sentence.None? || Strip(sentence.value) == [] {
      return Ok(([], None));
    }
    var s := Strip(sentence.value);
    var resp := enju(s);
    var rejection := Rejection(resp);
    if rejection.Some? {
      return Err(rejection.value);
    }
    var rows := Lines(resp.body);
    var parsed := ParseRows(rows);
    ReadRowsAll(Table(rows));
    if parsed.Err? {
      return Err(parsed.error);
    }
    var all := parsed.value;
    if |all| == 0 || all[0].args.None? || |all[0].args.value| == 0 {
      return Err(StandardError(NilMethod));
    }
    var root := all[0].args.value[0].ref;
    var raw := all[1..];
    var tokens := AssignSpans(s, raw);
    assert Dense(tokens) by {
      forall k | 0 <= k < |tokens| ensures tokens[k].idx == k {
        assert SpanAt(s, raw, tokens, k);
      }
    }
    return Ok((tokens, Some(root)));
  }
}
