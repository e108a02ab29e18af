/** Quoting of SQLite text (migrations/release/sqlite.ts) and the INSERT script built from it
    (migrations/release/mapper.ts), read back by a tokenizer with SQLite's doubled-quote rules. */
module SqlText {
  import opened Common

  datatype Value = Null | Int(n: int) | Text(s: string)

  datatype Token = Word(w: string) | Identifier(name: string) | Str(s: string) | Num(n: int) | Punct(c: char)

  const NUL: char := '\0'

  // ------------------------------------------------------------------- writing

  /** value.replaceAll(quote, quote + quote) */
  function Doubled(s: string, quote: char): string {
    if s == [] then []
    else (if s[0] == quote then [quote, quote] else [s[0]]) + Doubled(s[1..], quote)
  }

  /** None where the source throws. */
  function QuoteIdentifier(name: string): Option<string> {
    if name == "" || NUL in name then None else Some("\"" + Doubled(name, '"') + "\"")
  }

  function DigitsOf(n: nat): string {
    if n < 10 then [Digit(n)] else DigitsOf(n / 10) + [Digit(n % 10)]
  }

  function Digit(d: nat): char
    requires d < 10
  {
    "0123456789"[d]
  }

  /** String(n) */
  function Decimal(n: int): string {
    if n < 0 then "-" + DigitsOf(-n) else DigitsOf(n)
  }

  function QuoteLiteral(v: Value): Option<string> {
    match v
    case Null => Some("NULL")
    case Int(n) => Some(Decimal(n))
    case Text(s) => if NUL in s then None else Some("'" + Doubled(s, '\'') + "'")
  }

  predicate Quotable(v: Value) {
    v.Text? ==> NUL !in v.s
  }

  predicate Nameable(name: string) {
    name != "" && NUL !in name
  }

  function Ident(name: string): string
    requires Nameable(name)
  {
    QuoteIdentifier(name).value
  }

  function Lit(v: Value): string
    requires Quotable(v)
  {
    QuoteLiteral(v).value
  }

  /** pieces.join(', ') */
  function Join(pieces: seq<string>): string
    requires pieces != []
  {
    if |pieces| == 1 then pieces[0] else pieces[0] + ("," + (" " + Join(pieces[1..])))
  }

  function Idents(names: seq<string>): (r: seq<string>)
    requires forall x <- names :: Nameable(x)
    ensures |r| == |names|
  {
    seq(|names|, i requires 0 <= i < |names| => Ident(names[i]))
  }

  function Lits(values: seq<Value>): (r: seq<string>)
    requires forall v <- values :: Quotable(v)
    ensures |r| == |values|
  {
    seq(|values|, i requires 0 <= i < |values| => Lit(values[i]))
  }

  predicate Insertable(table: string, columns: seq<string>, values: seq<Value>) {
    && Nameable(table) && columns != [] && |columns| == |values|
    && (forall x <- columns :: Nameable(x)) && (forall v <- values :: Quotable(v))
  }

  /** mapInsertSql, followed by whatever comes next in the script. */
  function InsertThen(table: string, columns: seq<string>, values: seq<Value>, rest: string): string
    requires Insertable(table, columns, values)
  {
    "INSERT" + (" " + ("INTO" + (" " + (Ident(table) + (" " + ("(" + (Join(Idents(columns)) + (")" + (" " +
    ("VALUES" + (" " + ("(" + (Join(Lits(values)) + (")" + (";" + rest)))))))))))))))
  }

  /** The lines of the apply script between its CREATE TABLE and its COMMIT, joined by newlines. */
  function InsertScript(table: string, columns: seq<string>, rows: seq<seq<Value>>): string
    requires forall row <- rows :: Insertable(table, columns, row)
  {
    if rows == [] then "COMMIT" + (";" + "")
    else InsertThen(table, columns, rows[0], "\n" + InsertScript(table, columns, rows[1..]))
  }

  // ------------------------------------------------------------------- reading

  /** The text of a quoted token whose opening quote has been consumed, and what follows it. */
  function ReadQuoted(s: string, quote: char): Option<(string, string)>
    decreases |s|
  {
    if s == [] then None
    else if s[0] == quote then
      if |s| > 1 && s[1] == quote then
        match ReadQuoted(s[2..], quote)
        case None => None
        case Some((text, rest)) => Some(([quote] + text, rest))
      else Some(("", s[1..]))
    else
      match ReadQuoted(s[1..], quote)
      case None => None
      case Some((text, rest)) => Some(([s[0]] + text, rest))
  }

  predicate IsDigit(c: char) { '0' <= c <= '9' }

  function DigitValue(c: char): nat
    requires IsDigit(c)
  {
    c as int - '0' as int
  }

  predicate IsWordChar(c: char) {
    'a' <= c <= 'z' || 'A' <= c <= 'Z' || IsDigit(c) || c == '_'
  }

  /** Length of the longest prefix of word characters. */
  function WordLength(s: string): (n: nat)
    ensures n <= |s| && forall i | 0 <= i < n :: IsWordChar(s[i])
    ensures n < |s| ==> !IsWordChar(s[n])
  {
    if s == [] || !IsWordChar(s[0]) then 0 else 1 + WordLength(s[1..])
  }

  function ParseNat(s: string): Option<nat>
    decreases |s|
  {
    if s == [] || !IsDigit(s[|s| - 1]) then None
    else
      var last := DigitValue(s[|s| - 1]);
      if |s| == 1 then Some(last)
      else match ParseNat(s[..|s| - 1])
        case None => None
        case Some(front) => Some(10 * front + last)
  }

  /** One token and the remaining text; None on text the tokenizer does not know. */
  function NextToken(s: string): (r: Option<(Token, string)>)
    requires s != []
    ensures r.Some? ==> |r.value.1| < |s|
  {
    if s[0] == '"' then
      match ReadQuoted(s[1..], '"')
      case None => None
      case Some((text, rest)) => if |rest| < |s| then Some((Identifier(text), rest)) else None
    else if s[0] == '\'' then
      match ReadQuoted(s[1..], '\'')
      case None => None
      case Some((text, rest)) => if |rest| < |s| then Some((Str(text), rest)) else None
    else if IsDigit(s[0]) then
      var n := WordLength(s);
      match ParseNat(s[..n])
      case None => None
      case Some(value) => if n > 0 then Some((Num(value), s[n..])) else None
    else if s[0] == '-' && |s| > 1 && IsDigit(s[1]) then
      var n := WordLength(s[1..]);
      match ParseNat(s[1..][..n])
      case None => None
      case Some(value) => Some((Num(0 - value), s[1..][n..]))
    else if IsWordChar(s[0]) then
      var n := WordLength(s);
      if n > 0 then Some((Word(s[..n]), s[n..])) else None
    else Some((Punct(s[0]), s[1..]))
  }

  predicate IsSpace(c: char) { c == ' ' || c == '\n' }

  function Lex(s: string): Option<seq<Token>>
    decreases |s|
  {
    if s == [] then Some([])
    else if IsSpace(s[0]) then Lex(s[1..])
    else match NextToken(s)
      case None => None
      case Some((token, rest)) => Prepend(token, Lex(rest))
  }

  function Prepend(token: Token, tokens: Option<seq<Token>>): Option<seq<Token>> {
    if tokens == None then None else Some([token] + tokens.value)
  }

  // -------------------------------------------------------------- token lemmas

  /** What may follow a token: nothing that would extend it. */
  predicate Stops(rest: string, c: char) {
    rest == [] || rest[0] != c
  }

  predicate EndsWord(rest: string) {
    rest == [] || !IsWordChar(rest[0])
  }

  lemma {:induction false} ReadPair(quote: char, inner: string)
    ensures ReadQuoted([quote, quote] + inner, quote) ==
              match ReadQuoted(inner, quote) case None => None case Some((text, rest)) => Some(([quote] + text, rest))
  {
    assert ([quote, quote] + inner)[2..] == inner;
  }

  lemma {:induction false} ReadPlain(c: char, quote: char, inner: string)
    requires c != quote
    ensures ReadQuoted([c] + inner, quote) ==
              match ReadQuoted(inner, quote) case None => None case Some((text, rest)) => Some(([c] + text, rest))
  {
    assert ([c] + inner)[1..] == inner;
  }

  lemma {:induction false} ReadDoubled(s: string, quote: char, rest: string)
    requires Stops(rest, quote)
    ensures ReadQuoted(Doubled(s, quote) + ([quote] + rest), quote) == Some((s, rest))
  {
    var tail := [quote] + rest;
    if s == [] {
      assert Doubled(s, quote) + tail == tail;
      assert tail[1..] == rest;
    } else {
      ReadDoubled(s[1..], quote, rest);
      var inner := Doubled(s[1..], quote) + tail;
      assert s == [s[0]] + s[1..];
      if s[0] == quote {
        assert Doubled(s, quote) + tail == [quote, quote] + inner;
        ReadPair(quote, inner);
      } else {
        assert Doubled(s, quote) + tail == [s[0]] + inner;
        ReadPlain(s[0], quote, inner);
      }
    }
  }

  lemma {:induction false} LexIdentifier(name: string, rest: string)
    requires Nameable(name) && Stops(rest, '"')
    ensures Lex(Ident(name) + rest) == Prepend(Identifier(name), Lex(rest))
  {
    ReadDoubled(name, '"', rest);
    var s := Ident(name) + rest;
    assert s[1..] == Doubled(name, '"') + (['"'] + rest);
    assert s[0] == '"';
  }

  lemma {:induction false} LexText(s: string, rest: string)
    requires NUL !in s && Stops(rest, '\'')
    ensures Lex(Lit(Text(s)) + rest) == Prepend(Str(s), Lex(rest))
  {
    ReadDoubled(s, '\'', rest);
    var t := Lit(Text(s)) + rest;
    assert t[1..] == Doubled(s, '\'') + (['\''] + rest);
    assert t[0] == '\'';
  }

  lemma {:induction false} WordThenRest(w: string, rest: string)
    requires (forall c <- w :: IsWordChar(c)) && EndsWord(rest)
    ensures WordLength(w + rest) == |w|
  {
    if w == [] {
      assert w + rest == rest;
    } else {
      assert (w + rest)[1..] == w[1..] + rest;
      WordThenRest(w[1..], rest);
    }
  }

  lemma {:induction false} LexWord(w: string, rest: string)
    requires w != [] && (forall c <- w :: IsWordChar(c)) && !IsDigit(w[0]) && EndsWord(rest)
    ensures Lex(w + rest) == Prepend(Word(w), Lex(rest))
  {
    WordThenRest(w, rest);
    assert (w + rest)[0] == w[0];
    assert (w + rest)[..|w|] == w && (w + rest)[|w|..] == rest;
  }

  lemma {:induction false} LexPunct(c: char, rest: string)
    requires !IsWordChar(c) && !IsSpace(c) && c != '"' && c != '\'' && c != '-'
    ensures Lex([c] + rest) == Prepend(Punct(c), Lex(rest))
  {
    assert ([c] + rest)[1..] == rest;
  }

  lemma {:induction false} LexSpace(rest: string)
    ensures Lex(" " + rest) == Lex(rest) && Lex("\n" + rest) == Lex(rest)
  {
    assert (" " + rest)[1..] == rest && ("\n" + rest)[1..] == rest;
  }

  lemma {:induction false} DigitsReadBack(n: nat)
    ensures ParseNat(DigitsOf(n)) == Some(n)
    ensures DigitsOf(n) != [] && forall c <- DigitsOf(n) :: IsDigit(c)
  {
    if n >= 10 {
      DigitsReadBack(n / 10);
      var s := DigitsOf(n);
      assert s[..|s| - 1] == DigitsOf(n / 10);
    }
  }

  predicate DigitText(digits: string) {
    digits != [] && forall c <- digits :: IsDigit(c)
  }

  lemma {:induction false} LexUnsigned(digits: string, value: nat, rest: string)
    requires DigitText(digits) && ParseNat(digits) == Some(value) && EndsWord(rest)
    ensures Lex(digits + rest) == Prepend(Num(value), Lex(rest))
  {
    WordThenRest(digits, rest);
    var s := digits + rest;
    assert s[..|digits|] == digits && s[|digits|..] == rest && s[0] == digits[0];
    assert NextToken(s) == Some((Num(value), rest));
  }

  lemma {:induction false} LexNegative(digits: string, value: nat, rest: string)
    requires DigitText(digits) && ParseNat(digits) == Some(value) && EndsWord(rest)
    ensures Lex("-" + digits + rest) == Prepend(Num(0 - value), Lex(rest))
  {
    WordThenRest(digits, rest);
    var s := digits + rest;
    assert s[..|digits|] == digits && s[|digits|..] == rest && s[0] == digits[0];
    var t := "-" + digits + rest;
    assert t[1..] == s;
    assert NextToken(t) == Some((Num(0 - value), rest));
  }

  lemma {:induction false} LexNumber(n: int, rest: string)
    requires EndsWord(rest)
    ensures Lex(Decimal(n) + rest) == Prepend(Num(n), Lex(rest))
  {
    DigitsReadBack(if n < 0 then -n else n);
    if n < 0 {
      LexNegative(DigitsOf(-n), -n, rest);
    } else {
      LexUnsigned(DigitsOf(n), n, rest);
    }
  }

  function TokenOf(v: Value): Token {
    match v case Null => Word("NULL") case Int(n) => Num(n) case Text(s) => Str(s)
  }

  lemma {:induction false} LexLiteral(v: Value, rest: string)
    requires Quotable(v) && Stops(rest, '\'') && EndsWord(rest)
    ensures Lex(Lit(v) + rest) == Prepend(TokenOf(v), Lex(rest))
  {
    match v {
      case Null => LexWord("NULL", rest);
      case Int(n) => LexNumber(n, rest);
      case Text(s) => LexText(s, rest);
    }
  }

  // ---------------------------------------------------------- statement lemmas

  function Then(tokens: seq<Token>, more: Option<seq<Token>>): Option<seq<Token>> {
    if more == None then None else Some(tokens + more.value)
  }

  lemma {:induction false} PrependThen(token: Token, tokens: seq<Token>, more: Option<seq<Token>>)
    ensures Prepend(token, Then(tokens, more)) == Then([token] + tokens, more)
  {
    if more.Some? {
      assert [token] + (tokens + more.value) == ([token] + tokens) + more.value;
    }
  }

  /** Tokens of a comma-separated list. */
  function Separated(items: seq<Token>): seq<Token>
    requires items != []
  {
    if |items| == 1 then items else [items[0], Punct(',')] + Separated(items[1..])
  }

  function IdentTokens(names: seq<string>): seq<Token> { Map(names, (x: string) => Identifier(x)) }
  function ValueTokens(values: seq<Value>): seq<Token> { Map(values, (v: Value) => TokenOf(v)) }

  /** Inside a list, the piece reads as that one token. */
  ghost predicate LexesTo(piece: string, token: Token) {
    forall rest | rest != [] && (rest[0] == ',' || rest[0] == ')') :: Lex(piece + rest) == Prepend(token, Lex(rest))
  }

  lemma {:induction false} LexComma(piece: string, token: Token, tail: string)
    requires LexesTo(piece, token)
    ensures Lex(piece + ("," + (" " + tail))) == Prepend(token, Prepend(Punct(','), Lex(tail)))
  {
    assert ("," + (" " + tail))[0] == ',';
    LexPunct(',', " " + tail);
    LexSpace(tail);
  }

  lemma {:induction false} SeparatedThen(tokens: seq<Token>, more: Option<seq<Token>>)
    requires |tokens| > 1
    ensures Prepend(tokens[0], Prepend(Punct(','), Then(Separated(tokens[1..]), more))) == Then(Separated(tokens), more)
  {
    var tail := Separated(tokens[1..]);
    PrependThen(Punct(','), tail, more);
    PrependThen(tokens[0], [Punct(',')] + tail, more);
    assert [tokens[0]] + ([Punct(',')] + tail) == Separated(tokens);
  }

  lemma {:induction false} JoinSplits(pieces: seq<string>, rest: string)
    requires |pieces| > 1
    ensures Join(pieces) + rest == pieces[0] + ("," + (" " + (Join(pieces[1..]) + rest)))
  {
  }

  lemma {:induction false} LexJoin(pieces: seq<string>, tokens: seq<Token>, rest: string)
    requires pieces != [] && |pieces| == |tokens|
    requires forall i | 0 <= i < |pieces| :: LexesTo(pieces[i], tokens[i])
    requires rest != [] && rest[0] == ')'
    ensures Lex(Join(pieces) + rest) == Then(Separated(tokens), Lex(rest))
  {
    assert LexesTo(pieces[0], tokens[0]);
    if |pieces| == 1 {
      assert Separated(tokens) == [tokens[0]];
    } else {
      LexJoin(pieces[1..], tokens[1..], rest);
      JoinSplits(pieces, rest);
      LexComma(pieces[0], tokens[0], Join(pieces[1..]) + rest);
      SeparatedThen(tokens, Lex(rest));
    }
  }

  lemma {:induction false} LexIdents(names: seq<string>, rest: string)
    requires names != [] && forall x <- names :: Nameable(x)
    requires rest != [] && rest[0] == ')'
    ensures Lex(Join(Idents(names)) + rest) == Then(Separated(IdentTokens(names)), Lex(rest))
  {
    forall i | 0 <= i < |names| ensures LexesTo(Idents(names)[i], IdentTokens(names)[i]) {
      forall tail: string | tail != [] && (tail[0] == ',' || tail[0] == ')')
        ensures Lex(Ident(names[i]) + tail) == Prepend(Identifier(names[i]), Lex(tail))
      {
        LexIdentifier(names[i], tail);
      }
    }
    LexJoin(Idents(names), IdentTokens(names), rest);
  }

  lemma {:induction false} LexLits(values: seq<Value>, rest: string)
    requires values != [] && forall v <- values :: Quotable(v)
    requires rest != [] && rest[0] == ')'
    ensures Lex(Join(Lits(values)) + rest) == Then(Separated(ValueTokens(values)), Lex(rest))
  {
    forall i | 0 <= i < |values| ensures LexesTo(Lits(values)[i], ValueTokens(values)[i]) {
      forall tail: string | tail != [] && (tail[0] == ',' || tail[0] == ')')
        ensures Lex(Lit(values[i]) + tail) == Prepend(TokenOf(values[i]), Lex(tail))
      {
        LexLiteral(values[i], tail);
      }
    }
    LexJoin(Lits(values), ValueTokens(values), rest);
  }

  function InsertTokens(table: string, columns: seq<string>, values: seq<Value>): seq<Token>
    requires columns != [] && values != []
  {
    [Word("INSERT"), Word("INTO"), Identifier(table), Punct('(')] + Separated(IdentTokens(columns))
    + [Punct(')'), Word("VALUES"), Punct('(')] + Separated(ValueTokens(values)) + [Punct(')'), Punct(';')]
  }

  /** The tail of an INSERT from its column list on. */
  lemma {:induction false} LexInsertTail(columns: seq<string>, values: seq<Value>, rest: string)
    requires columns != [] && values != []
    requires (forall x <- columns :: Nameable(x)) && (forall v <- values :: Quotable(v))
    ensures Lex(Join(Idents(columns)) + (")" + (" " + ("VALUES" + (" " + ("(" + (Join(Lits(values)) + (")" + (";" + rest)))))))))
            == Then(Separated(IdentTokens(columns)),
                 Prepend(Punct(')'), Prepend(Word("VALUES"), Prepend(Punct('('),
                   Then(Separated(ValueTokens(values)), Prepend(Punct(')'), Prepend(Punct(';'), Lex(rest))))))))
  {
    var end := ")" + (";" + rest);
    var lits := Join(Lits(values)) + end;
    LexPunct(';', rest);
    LexPunct(')', ";" + rest);
    LexLits(values, end);
    LexPunct('(', lits);
    LexSpace("(" + lits);
    LexWord("VALUES", " " + ("(" + lits));
    LexSpace("VALUES" + (" " + ("(" + lits)));
    LexPunct(')', " " + ("VALUES" + (" " + ("(" + lits))));
    LexIdents(columns, ")" + (" " + ("VALUES" + (" " + ("(" + lits)))));
  }

  lemma {:induction false} LexInsert(table: string, columns: seq<string>, values: seq<Value>, rest: string)
    requires Insertable(table, columns, values)
    ensures Lex(InsertThen(table, columns, values, rest)) == Then(InsertTokens(table, columns, values), Lex(rest))
  {
    var tail := Join(Idents(columns)) + (")" + (" " + ("VALUES" + (" " + ("(" + (Join(Lits(values)) + (")" + (";" + rest))))))));
    LexInsertTail(columns, values, rest);
    LexPunct('(', tail);
    LexSpace("(" + tail);
    LexIdentifier(table, " " + ("(" + tail));
    var named := Ident(table) + (" " + ("(" + tail));
    LexSpace(named);
    LexWord("INTO", " " + named);
    LexSpace("INTO" + (" " + named));
    LexWord("INSERT", " " + ("INTO" + (" " + named)));
    RegroupInsert(table, columns, values, Lex(rest));
  }

  lemma {:induction false} RegroupInsert(table: string, columns: seq<string>, values: seq<Value>, more: Option<seq<Token>>)
    requires columns != [] && values != []
    ensures Prepend(Word("INSERT"), Prepend(Word("INTO"), Prepend(Identifier(table), Prepend(Punct('('),
              Then(Separated(IdentTokens(columns)),
                Prepend(Punct(')'), Prepend(Word("VALUES"), Prepend(Punct('('),
                  Then(Separated(ValueTokens(values)), Prepend(Punct(')'), Prepend(Punct(';'), more)))))))))))
            == Then(InsertTokens(table, columns, values), more)
  {
    if more.Some? {
      var t := more.value;
      var front := [Word("INSERT"), Word("INTO"), Identifier(table), Punct('(')];
      var middle := [Punct(')'), Word("VALUES"), Punct('(')];
      var back := [Punct(')'), Punct(';')];
      var cols, vals := Separated(IdentTokens(columns)), Separated(ValueTokens(values));
      assert [Punct(')')] + ([Punct(';')] + t) == back + t;
      assert [Punct(')')] + ([Word("VALUES")] + ([Punct('(')] + (vals + (back + t)))) == middle + (vals + (back + t));
      assert [Word("INSERT")] + ([Word("INTO")] + ([Identifier(table)] + ([Punct('(')] + (cols + (middle + (vals + (back + t)))))))
             == front + (cols + (middle + (vals + (back + t))));
      assert front + (cols + (middle + (vals + (back + t)))) == InsertTokens(table, columns, values) + t;
    }
  }

  // ------------------------------------------------------------------ read back

  datatype Insert = Insert(table: string, columns: seq<string>, values: seq<Value>)

  /** A comma-separated list of tokens up to its closing parenthesis. */
  function ReadList(tokens: seq<Token>): Option<(seq<Token>, seq<Token>)> {
    if |tokens| < 2 then None
    else if tokens[1] == Punct(')') then Some(([tokens[0]], tokens[2..]))
    else if tokens[1] != Punct(',') then None
    else match ReadList(tokens[2..])
      case None => None
      case Some((items, rest)) => Some(([tokens[0]] + items, rest))
  }

  function NameOf(t: Token): Option<string> {
    if t.Identifier? then Some(t.name) else None
  }

  function ValueOf(t: Token): Option<Value> {
    match t
    case Word(w) => if w == "NULL" then Some(Null) else None
    case Num(n) => Some(Int(n))
    case Str(s) => Some(Text(s))
    case _ => None
  }

  function All<T>(options: seq<Option<T>>): Option<seq<T>> {
    if options == [] then Some([])
    else if options[0] == None || All(options[1..]) == None then None
    else Some([options[0].value] + All(options[1..]).value)
  }

  function ReadInsert(tokens: seq<Token>): Option<(Insert, seq<Token>)> {
    if |tokens| < 4 || tokens[0] != Word("INSERT") || tokens[1] != Word("INTO") || !tokens[2].Identifier?
       || tokens[3] != Punct('(') then None
    else match ReadList(tokens[4..])
      case None => None
      case Some((names, afterNames)) =>
        if |afterNames| < 2 || afterNames[..2] != [Word("VALUES"), Punct('(')] then None
        else match ReadList(afterNames[2..])
          case None => None
          case Some((values, end)) =>
            var columns := All(Map(names, NameOf));
            var row := All(Map(values, ValueOf));
            if columns == None || row == None || end == [] || end[0] != Punct(';') then None
            else Some((Insert(tokens[2].name, columns.value, row.value), end[1..]))
  }

  /** The INSERT statements of a script that ends in COMMIT. */
  function ReadScript(tokens: seq<Token>): Option<seq<Insert>>
    decreases |tokens|
  {
    if tokens == [Word("COMMIT"), Punct(';')] then Some([])
    else match ReadInsert(tokens)
      case None => None
      case Some((insert, rest)) =>
        if |rest| >= |tokens| then None
        else match ReadScript(rest)
          case None => None
          case Some(more) => Some([insert] + more)
  }

  lemma {:induction false} ReadSeparated(items: seq<Token>, rest: seq<Token>)
    requires items != [] && forall t <- items :: !t.Punct?
    ensures ReadList(Separated(items) + ([Punct(')')] + rest)) == Some((items, rest))
  {
    var tokens := Separated(items) + ([Punct(')')] + rest);
    if |items| == 1 {
      assert items == [items[0]];
      assert tokens == [items[0], Punct(')')] + rest;
      assert tokens[2..] == rest;
    } else {
      var tail := Separated(items[1..]) + ([Punct(')')] + rest);
      ReadSeparated(items[1..], rest);
      assert tokens == [items[0], Punct(',')] + tail;
      assert tokens[2..] == tail;
      assert items == [items[0]] + items[1..];
    }
  }

  lemma {:induction false} NamesComeBack(names: seq<string>)
    ensures All(Map(IdentTokens(names), NameOf)) == Some(names)
  {
    if names != [] {
      NamesComeBack(names[1..]);
      assert names == [names[0]] + names[1..];
      assert IdentTokens(names)[1..] == IdentTokens(names[1..]);
      assert Map(IdentTokens(names), NameOf)[1..] == Map(IdentTokens(names[1..]), NameOf);
    }
  }

  lemma {:induction false} ValuesComeBack(values: seq<Value>)
    ensures All(Map(ValueTokens(values), ValueOf)) == Some(values)
  {
    if values != [] {
      ValuesComeBack(values[1..]);
      assert values == [values[0]] + values[1..];
      assert ValueTokens(values)[1..] == ValueTokens(values[1..]);
      assert Map(ValueTokens(values), ValueOf)[1..] == Map(ValueTokens(values[1..]), ValueOf);
    }
  }

  lemma {:induction false} InsertTokensSplit(table: string, columns: seq<string>, values: seq<Value>, rest: seq<Token>)
    requires columns != [] && values != []
    ensures var end := [Punct(';')] + rest;
            var valueList := Separated(ValueTokens(values)) + ([Punct(')')] + end);
            InsertTokens(table, columns, values) + rest
            == [Word("INSERT"), Word("INTO"), Identifier(table), Punct('(')]
               + (Separated(IdentTokens(columns)) + ([Punct(')')] + ([Word("VALUES"), Punct('(')] + valueList)))
  {
  }

  lemma {:induction false} InsertComesBack(table: string, columns: seq<string>, values: seq<Value>, rest: seq<Token>)
    requires columns != [] && values != []
    ensures ReadInsert(InsertTokens(table, columns, values) + rest) == Some((Insert(table, columns, values), rest))
  {
    var end := [Punct(';')] + rest;
    var valueList := Separated(ValueTokens(values)) + ([Punct(')')] + end);
    var afterNames := [Word("VALUES"), Punct('(')] + valueList;
    var nameList := Separated(IdentTokens(columns)) + ([Punct(')')] + afterNames);
    var head := [Word("INSERT"), Word("INTO"), Identifier(table), Punct('(')];
    InsertTokensSplit(table, columns, values, rest);
    assert (head + nameList)[4..] == nameList;
    ReadSeparated(IdentTokens(columns), afterNames);
    assert afterNames[2..] == valueList;
    ReadSeparated(ValueTokens(values), end);
    NamesComeBack(columns);
    ValuesComeBack(values);
    assert end[1..] == rest;
  }

  /** Main theorem: whatever text the rows hold, the generated script reads back as exactly one INSERT
      per row with the same table, columns and values. */
  lemma {:induction false} ScriptReadsBack(table: string, columns: seq<string>, rows: seq<seq<Value>>)
    requires forall row <- rows :: Insertable(table, columns, row)
    ensures var tokens := Lex(InsertScript(table, columns, rows));
            tokens.Some? && ReadScript(tokens.value) == Some(Inserts(table, columns, rows))
  {
    if rows == [] {
      LexWord("COMMIT", ";" + "");
      LexPunct(';', "");
      assert Lex(InsertScript(table, columns, rows)).value == [Word("COMMIT"), Punct(';')];
    } else {
      var rest := InsertScript(table, columns, rows[1..]);
      ScriptReadsBack(table, columns, rows[1..]);
      LexSpace(rest);
      LexInsert(table, columns, rows[0], "\n" + rest);
      var more := Lex(rest).value;
      InsertComesBack(table, columns, rows[0], more);
      var tokens := InsertTokens(table, columns, rows[0]) + more;
      assert Lex(InsertScript(table, columns, rows)) == Some(tokens);
      assert tokens[0] == Word("INSERT");
    }
  }

  function Inserts(table: string, columns: seq<string>, rows: seq<seq<Value>>): seq<Insert> {
    if rows == [] then [] else [Insert(table, columns, rows[0])] + Inserts(table, columns, rows[1..])
  }
}
