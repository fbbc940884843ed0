/** The two scanners of the Postgres layer.
  *
  * One splits a block of DDL into its statements, the other numbers the placeholders of a query. Both cut a text
  * at a separator outside quotes; only the first knows line comments. The functions here say where the cuts are
  * and what lies between them, the loops are proved against these functions, and the lemmas say what is lost and
  * what comes back: joined again the pieces are the text, and cut again each piece is whole.
  */
module Statements {

  /** What a scanner cuts at, and whether it knows line comments. Both know quotes. */
  datatype Syntax = Syntax(separator: char, comments: bool)

  const SQL := Syntax(';', true)
  const QUERY := Syntax('?', false)

  datatype Mode = Code | Comment | Quote

  predicate Plain(x: Syntax) {
    x.separator != '-' && x.separator != '\'' && x.separator != '\n'
  }

  /** The mode after the first character of `s`. */
  function Step(x: Syntax, s: string, mode: Mode): Mode
    requires s != ""
  {
    match mode
    case Comment => if s[0] == '\n' then Code else Comment
    case Quote => if s[0] == '\'' then Code else Quote
    case Code =>
      if x.comments && s[0] == '-' && |s| > 1 && s[1] == '-' then Comment
      else if s[0] == '\'' then Quote
      else Code
  }

  /** Where the first separator outside quotes and comments is, or the end. */
  function Cut(x: Syntax, s: string, mode: Mode): (k: nat)
    ensures k <= |s|
  {
    if s == "" || (mode == Code && s[0] == x.separator) then 0 else 1 + Cut(x, s[1..], Step(x, s, mode))
  }

  function EndMode(x: Syntax, s: string, mode: Mode): Mode {
    if s == "" then mode else EndMode(x, s[1..], Step(x, s, mode))
  }

  function Pieces(x: Syntax, s: string): (parts: seq<string>)
    ensures parts != []
    decreases |s|
  {
    var k := Cut(x, s, Code);
    if k == |s| then [s] else [s[..k]] + Pieces(x, s[k + 1..])
  }

  function Joined(parts: seq<string>, separator: char): string {
    if parts == [] then ""
    else if |parts| == 1 then parts[0]
    else parts[0] + [separator] + Joined(parts[1..], separator)
  }

  /** One piece: no separator outside quotes and comments. */
  predicate Whole(x: Syntax, s: string, mode: Mode) {
    Cut(x, s, mode) == |s|
  }

  // ----- Cutting and joining -----

  lemma {:induction false} CutIsWhole(x: Syntax, s: string, mode: Mode)
    requires Plain(x)
    ensures var k := Cut(x, s, mode);
            Whole(x, s[..k], mode) && (k < |s| ==> EndMode(x, s[..k], mode) == Code && s[k] == x.separator)
    decreases |s|
  {
    var k := Cut(x, s, mode);
    if k > 0 {
      CutIsWhole(x, s[1..], Step(x, s, mode));
      assert s[..k][1..] == s[1..][..k - 1];
      if k == 1 && |s| > 1 { assert s[1..][0] == s[1]; }
      assert Step(x, s[..k], mode) == Step(x, s, mode);
    }
  }

  lemma {:induction false} CutJoined(x: Syntax, s: string, mode: Mode, rest: string)
    requires Plain(x) && Whole(x, s, mode) && EndMode(x, s, mode) == Code
    ensures Cut(x, s + [x.separator] + rest, mode) == |s|
    decreases |s|
  {
    var t := s + [x.separator] + rest;
    if s != "" {
      CutJoined(x, s[1..], Step(x, s, mode), rest);
      assert t[1..] == s[1..] + [x.separator] + rest;
      assert Step(x, t, mode) == Step(x, s, mode);
    }
  }

  /** The pieces re-joined are the text itself, no piece holds a separator, and only the last may end inside a quote
    * or comment. */
  lemma {:induction false} PiecesJoin(x: Syntax, s: string)
    requires Plain(x)
    ensures Joined(Pieces(x, s), x.separator) == s
    ensures Proper(x, Pieces(x, s))
    decreases |s|
  {
    var k := Cut(x, s, Code);
    CutIsWhole(x, s, Code);
    if k < |s| {
      PiecesJoin(x, s[k + 1..]);
      var rest := Pieces(x, s[k + 1..]);
      assert ([s[..k]] + rest)[1..] == rest;
      assert s == s[..k] + [s[k]] + s[k + 1..];
    } else {
      assert s[..k] == s;
    }
  }

  ghost predicate Proper(x: Syntax, parts: seq<string>) {
    && (forall p :: p in parts ==> Whole(x, p, Code))
    && forall i :: 0 <= i < |parts| - 1 ==> EndMode(x, parts[i], Code) == Code
  }

  lemma ProperTail(x: Syntax, parts: seq<string>)
    requires Proper(x, parts) && parts != []
    ensures Proper(x, parts[1..])
  {
    forall i | 0 <= i < |parts[1..]| - 1 ensures EndMode(x, parts[1..][i], Code) == Code {
      assert parts[1..][i] == parts[i + 1];
    }
  }

  lemma CutFirst(x: Syntax, part: string, rest: string)
    requires Plain(x) && Whole(x, part, Code) && EndMode(x, part, Code) == Code
    ensures Pieces(x, part + [x.separator] + rest) == [part] + Pieces(x, rest)
  {
    var s := part + [x.separator] + rest;
    CutJoined(x, part, Code, rest);
    assert s[..|part|] == part && s[|part| + 1..] == rest;
  }

  /** And back: proper pieces joined are cut into just these. */
  lemma {:induction false} JoinThenCut(x: Syntax, parts: seq<string>)
    requires Plain(x) && Proper(x, parts) && parts != []
    ensures Pieces(x, Joined(parts, x.separator)) == parts
    decreases |parts|
  {
    assert parts[0] in parts;
    if |parts| > 1 {
      assert EndMode(x, parts[0], Code) == Code;
      CutFirst(x, parts[0], Joined(parts[1..], x.separator));
      ProperTail(x, parts);
      JoinThenCut(x, parts[1..]);
    }
  }

  // ----- How the two read -----

  lemma {:induction false} InComment(c: string, rest: string)
    requires '\n' !in c
    ensures Cut(SQL, c + "\n" + rest, Comment) == |c| + 1 + Cut(SQL, rest, Code)
    ensures Cut(SQL, c, Comment) == |c|
    decreases |c|
  {
    if c == "" {
      assert (c + "\n" + rest)[1..] == rest;
    } else {
      assert c[0] in c && forall x :: x in c[1..] ==> x in c;
      assert (c + "\n" + rest)[1..] == c[1..] + "\n" + rest;
      InComment(c[1..], rest);
    }
  }

  lemma {:induction false} InQuote(x: Syntax, c: string, rest: string)
    requires '\'' !in c
    ensures Cut(x, c + "'" + rest, Quote) == |c| + 1 + Cut(x, rest, Code)
    ensures Cut(x, c, Quote) == |c|
    decreases |c|
  {
    if c == "" {
      assert (c + "'" + rest)[1..] == rest;
    } else {
      assert c[0] in c && forall d :: d in c[1..] ==> d in c;
      assert (c + "'" + rest)[1..] == c[1..] + "'" + rest;
      InQuote(x, c[1..], rest);
    }
  }

  /** DDL is cut at a semicolon, and only outside quotes and line comments: what stands between two quotes, and from two
    * dashes to the end of their line, is read over, and so is everything else but a semicolon. */
  lemma SqlReads(c: string, rest: string)
    ensures Cut(SQL, ";" + rest, Code) == 0
    ensures forall ch :: ch !in {';', '\'', '-'} ==> Cut(SQL, [ch] + rest, Code) == 1 + Cut(SQL, rest, Code)
    ensures (rest == "" || rest[0] != '-') ==> Cut(SQL, "-" + rest, Code) == 1 + Cut(SQL, rest, Code)
    ensures '\'' !in c ==> Cut(SQL, "'" + (c + "'" + rest), Code) == |c| + 2 + Cut(SQL, rest, Code)
    ensures '\n' !in c ==> Cut(SQL, "-" + ("-" + c + "\n" + rest), Code) == |c| + 3 + Cut(SQL, rest, Code)
  {
    OneMore(rest);
    if '\'' !in c {
      assert ("'" + (c + "'" + rest))[1..] == c + "'" + rest;
      InQuote(SQL, c, rest);
    }
    if '\n' !in c { CommentRead(c, rest); }
  }

  lemma OneMore(rest: string)
    ensures forall ch :: ch !in {';', '\'', '-'} ==> Cut(SQL, [ch] + rest, Code) == 1 + Cut(SQL, rest, Code)
    ensures (rest == "" || rest[0] != '-') ==> Cut(SQL, "-" + rest, Code) == 1 + Cut(SQL, rest, Code)
  {
    forall ch ensures ([ch] + rest)[1..] == rest {
    }
    assert ("-" + rest)[1..] == rest;
  }

  lemma CommentRead(c: string, rest: string)
    requires '\n' !in c
    ensures Cut(SQL, "-" + ("-" + c + "\n" + rest), Code) == |c| + 3 + Cut(SQL, rest, Code)
  {
    var tail := "-" + c + "\n" + rest;
    assert ("-" + tail)[1..] == tail && ("-" + tail)[1] == '-';
    assert '\n' !in "-" + c;
    InComment("-" + c, rest);
  }

  /** A query is cut at every question mark outside quotes, comments or not. */
  lemma QueryReads(c: string, rest: string)
    ensures Cut(QUERY, "?" + rest, Code) == 0
    ensures forall ch :: ch != '?' && ch != '\'' ==> Cut(QUERY, [ch] + rest, Code) == 1 + Cut(QUERY, rest, Code)
    ensures '\'' !in c ==> Cut(QUERY, "'" + (c + "'" + rest), Code) == |c| + 2 + Cut(QUERY, rest, Code)
  {
    forall ch ensures ([ch] + rest)[1..] == rest {
    }
    if '\'' !in c {
      assert ("'" + (c + "'" + rest))[1..] == c + "'" + rest;
      InQuote(QUERY, c, rest);
    }
  }

  /** A quote or a comment that is never closed reaches to the end. */
  lemma Unclosed(c: string)
    ensures '\'' !in c ==> Whole(SQL, "'" + c, Code) && Whole(QUERY, "'" + c, Code)
    ensures '\n' !in c ==> Whole(SQL, "-" + ("-" + c), Code)
  {
    assert ("'" + c)[1..] == c && ("-" + ("-" + c))[1..] == "-" + c && ("-" + ("-" + c))[1] == '-';
    if '\'' !in c {
      InQuote(SQL, c, "");
      InQuote(QUERY, c, "");
    }
    if '\n' !in c {
      assert '\n' !in "-" + c;
      InComment("-" + c, "");
    }
  }

  // ----- Statements -----

  /** `unicode.IsSpace`. */
  predicate Space(c: char) {
    || '\t' <= c <= '\r' || c == ' ' || c == '\U{85}' || c == '\U{A0}' || c == '\U{1680}' || '\U{2000}' <= c <= '\U{200a}'
    || c == '\U{2028}' || c == '\U{2029}' || c == '\U{202f}' || c == '\U{205f}' || c == '\U{3000}'
  }

  /** `strings.TrimSpace(s) == ""`. */
  predicate Blank(s: string) {
    forall c :: c in s ==> Space(c)
  }

  lemma BlankIs()
    ensures forall c :: c in {' ', '\t', '\n', '\r', '\U{b}', '\U{c}', '\U{85}', '\U{A0}'} ==> Blank([c])
    ensures forall c :: '!' <= c <= '~' ==> !Blank([c])
    ensures Blank("")
  {
    forall c | '!' <= c <= '~' ensures !Blank([c]) {
      assert c in [c];
    }
  }

  function Kept(parts: seq<string>): seq<string> {
    if parts == [] then []
    else (if Blank(parts[0]) then [] else [parts[0]]) + Kept(parts[1..])
  }

  /** The statements: the pieces that are not blank. */
  function Split(block: string): seq<string> {
    Kept(Pieces(SQL, block))
  }

  /** What is still to come when `cur` has been read of the current statement. */
  function StillToCome(cur: string, s: string, mode: Mode): seq<string> {
    var k := Cut(SQL, s, mode);
    Kept([cur + s[..k]]) + if k < |s| then Split(s[k + 1..]) else []
  }

  lemma KeptOne(part: string)
    ensures Kept([part]) == if Blank(part) then [] else [part]
  {
    assert [part][1..] == [];
  }

  lemma KeptOfMore(part: string, parts: seq<string>)
    ensures Kept([part] + parts) == Kept([part]) + Kept(parts)
  {
    assert ([part] + parts)[1..] == parts && [part][1..] == [];
  }

  lemma SplitIsToCome(s: string)
    ensures Split(s) == StillToCome("", s, Code)
  {
    var k := Cut(SQL, s, Code);
    assert "" + s[..k] == s[..k];
    if k < |s| { KeptOfMore(s[..k], Pieces(SQL, s[k + 1..])); } else { assert s[..k] == s; }
  }

  lemma ReadOne(cur: string, s: string, mode: Mode)
    requires s != "" && !(mode == Code && s[0] == ';')
    ensures StillToCome(cur, s, mode) == StillToCome(cur + [s[0]], s[1..], Step(SQL, s, mode))
  {
    var k := Cut(SQL, s, mode);
    assert cur + s[..k] == (cur + [s[0]]) + s[1..][..k - 1];
    assert k < |s| ==> s[k + 1..] == s[1..][k..];
  }

  lemma ReadSeparator(cur: string, s: string)
    requires s != "" && s[0] == ';'
    ensures StillToCome(cur, s, Code) == Kept([cur]) + StillToCome("", s[1..], Code)
  {
    assert cur + s[..0] == cur;
    SplitIsToCome(s[1..]);
  }

  function ModeOf(inLineComment: bool, inQuote: bool): Mode {
    if inLineComment then Comment else if inQuote then Quote else Code
  }

  /** What reading the character at `i` does to what is still to come. */
  ghost predicate Reads(toCome: (string, nat, Mode) -> seq<string>, block: string, cur: string, i: nat, mode: Mode)
    requires i < |block|
  {
    if mode == Code && block[i] == ';' then toCome(cur, i, Code) == Kept([cur]) + toCome("", i + 1, Code)
    else toCome(cur, i, mode) == toCome(cur + [block[i]], i + 1, Step(SQL, block[i..], mode))
  }

  function ToCome(block: string): (string, nat, Mode) -> seq<string> {
    (cur: string, i: nat, mode: Mode) => if i <= |block| then StillToCome(cur, block[i..], mode) else []
  }

  lemma ToComeReads(block: string, cur: string, i: nat, mode: Mode)
    requires i < |block|
    ensures Reads(ToCome(block), block, cur, i, mode)
  {
    var s := block[i..];
    assert s[1..] == block[i + 1..];
    if mode == Code && block[i] == ';' { ReadSeparator(cur, s); } else { ReadOne(cur, s, mode); }
  }

  /** The loop, with any account of what is still to come that reading keeps. */
  method ReadBlock(block: string, ghost toCome: (string, nat, Mode) -> seq<string>) returns (out: seq<string>)
    requires forall cur, i: nat, mode :: i < |block| ==> Reads(toCome, block, cur, i, mode)
    requires forall cur, mode :: toCome(cur, |block|, mode) == Kept([cur])
    ensures out == toCome("", 0, Code)
  {
    out := [];
    var cur := "";
    var inLineComment, inQuote := false, false;
    for i := 0 to |block|
      invariant !(inLineComment && inQuote)
      invariant out + toCome(cur, i, ModeOf(inLineComment, inQuote)) == toCome("", 0, Code)
    {
      var ch := block[i];
      assert Reads(toCome, block, cur, i, ModeOf(inLineComment, inQuote));
      KeptOne(cur);
      if inLineComment {
        cur := cur + [ch];
        if ch == '\n' { inLineComment := false; }
      } else if inQuote {
        cur := cur + [ch];
        if ch == '\'' { inQuote := false; }
      } else if ch == '-' && i + 1 < |block| && block[i + 1] == '-' {
        inLineComment := true;
        cur := cur + [ch];
      } else if ch == '\'' {
        inQuote := true;
        cur := cur + [ch];
      } else if ch == ';' {
        if !Blank(cur) { out := out + [cur]; }
        cur := "";
      } else {
        cur := cur + [ch];
      }
    }
    KeptOne(cur);
    if !Blank(cur) { out := out + [cur]; }
  }

  method SplitStatements(block: string) returns (out: seq<string>)
    ensures out == Split(block)
  {
    forall cur, i: nat, mode | i < |block| ensures Reads(ToCome(block), block, cur, i, mode) {
      ToComeReads(block, cur, i, mode);
    }
    forall cur, mode ensures ToCome(block)(cur, |block|, mode) == Kept([cur]) {
      assert cur + ""[..0] == cur;
    }
    SplitIsToCome(block);
    assert block[0..] == block;
    out := ReadBlock(block, ToCome(block));
  }

  lemma {:induction false} KeptAre(x: Syntax, parts: seq<string>)
    requires Proper(x, parts)
    ensures Proper(x, Kept(parts))
    ensures forall p :: p in Kept(parts) <==> p in parts && !Blank(p)
    decreases |parts|
  {
    if parts != [] {
      ProperTail(x, parts);
      KeptAre(x, parts[1..]);
      assert parts == [parts[0]] + parts[1..];
      var rest := Kept(parts[1..]);
      if !Blank(parts[0]) && rest != [] {
        assert rest[0] in parts[1..];
        assert EndMode(x, parts[0], Code) == Code;
      }
    }
  }

  lemma {:induction false} KeptAll(parts: seq<string>)
    requires forall p :: p in parts ==> !Blank(p)
    ensures Kept(parts) == parts
    decreases |parts|
  {
    if parts != [] {
      assert parts == [parts[0]] + parts[1..];
      KeptAll(parts[1..]);
    }
  }

  /** The statements of a block are its pieces that are not blank, in order; none holds a `;` outside a quote or line
    * comment, so each, split again, is just itself; and joined by `;` and split again they come back. */
  lemma SplitRoundTrip(block: string)
    ensures Joined(Pieces(SQL, block), ';') == block
    ensures forall p :: p in Split(block) <==> p in Pieces(SQL, block) && !Blank(p)
    ensures forall p :: p in Split(block) ==> Whole(SQL, p, Code) && Split(p) == [p]
    ensures Split(Joined(Split(block), ';')) == Split(block)
  {
    PiecesJoin(SQL, block);
    KeptAre(SQL, Pieces(SQL, block));
    forall p | p in Split(block) ensures Whole(SQL, p, Code) && Split(p) == [p] {
      KeptAll([p]);
    }
    var parts := Split(block);
    if parts != [] {
      JoinThenCut(SQL, parts);
      KeptAll(parts);
    } else {
      KeptOne("");
      assert Joined(parts, ';') == "" && Pieces(SQL, "") == [""];
    }
  }

  // ----- Placeholders -----

  function Digit(n: nat): char
    requires n < 10
  {
    '0' + n as char
  }

  /** `strconv.Itoa` of a number that is not negative. */
  function Decimal(n: nat): string {
    if n < 10 then [Digit(n)] else Decimal(n / 10) + [Digit(n % 10)]
  }

  /** The parts with `$n`, `$n+1` and so on between them. */
  function Numbered(parts: seq<string>, n: nat): string {
    if parts == [] then ""
    else if |parts| == 1 then parts[0]
    else parts[0] + "$" + Decimal(n) + Numbered(parts[1..], n + 1)
  }

  function Rebound(q: string): string {
    Numbered(Pieces(QUERY, q), 1)
  }

  /** What is still to come when `n` placeholders have been read. */
  function ReboundRest(s: string, mode: Mode, n: nat): string {
    var k := Cut(QUERY, s, mode);
    s[..k] + if k < |s| then "$" + Decimal(n + 1) + Numbered(Pieces(QUERY, s[k + 1..]), n + 2) else ""
  }

  lemma ReboundIsRest(s: string, n: nat)
    ensures Numbered(Pieces(QUERY, s), n + 1) == ReboundRest(s, Code, n)
  {
    var k := Cut(QUERY, s, Code);
    if k < |s| {
      var rest := Pieces(QUERY, s[k + 1..]);
      assert ([s[..k]] + rest)[1..] == rest;
    } else {
      assert s[..k] == s;
    }
  }

  lemma RebindOne(s: string, mode: Mode, n: nat)
    requires s != "" && !(mode == Code && s[0] == '?')
    ensures ReboundRest(s, mode, n) == [s[0]] + ReboundRest(s[1..], Step(QUERY, s, mode), n)
  {
    var k := Cut(QUERY, s, mode);
    assert s[..k] == [s[0]] + s[1..][..k - 1];
    assert k < |s| ==> s[k + 1..] == s[1..][k..];
  }

  lemma RebindPlaceholder(s: string, n: nat)
    requires s != "" && s[0] == '?'
    ensures ReboundRest(s, Code, n) == "$" + Decimal(n + 1) + ReboundRest(s[1..], Code, n + 1)
  {
    assert s[..0] == "";
    ReboundIsRest(s[1..], n + 1);
  }

  lemma {:induction false} NoPlaceholder(q: string, mode: Mode)
    requires '?' !in q
    ensures Whole(QUERY, q, mode)
    decreases |q|
  {
    if q != "" {
      assert q[0] in q && forall c :: c in q[1..] ==> c in q;
      NoPlaceholder(q[1..], Step(QUERY, q, mode));
    }
  }

  /** What reading the character at `i` does to what is still to come. */
  ghost predicate Rebinds(toCome: (nat, Mode, nat) -> string, q: string, i: nat, mode: Mode, n: nat)
    requires i < |q|
  {
    if mode == Code && q[i] == '?' then toCome(i, Code, n) == "$" + Decimal(n + 1) + toCome(i + 1, Code, n + 1)
    else toCome(i, mode, n) == [q[i]] + toCome(i + 1, Step(QUERY, q[i..], mode), n)
  }

  function ToRebind(q: string): (nat, Mode, nat) -> string {
    (i: nat, mode: Mode, n: nat) => if i <= |q| then ReboundRest(q[i..], mode, n) else ""
  }

  lemma ToRebindRebinds(q: string, i: nat, mode: Mode, n: nat)
    requires i < |q|
    ensures Rebinds(ToRebind(q), q, i, mode, n)
  {
    var s := q[i..];
    assert s[1..] == q[i + 1..];
    if mode == Code && q[i] == '?' { RebindPlaceholder(s, n); } else { RebindOne(s, mode, n); }
  }

  /** The loop, with any account of what is still to come that reading keeps. */
  method NumberPlaceholders(q: string, ghost toCome: (nat, Mode, nat) -> string) returns (b: string)
    requires forall i: nat, mode, n: nat :: i < |q| ==> Rebinds(toCome, q, i, mode, n)
    requires forall mode, n: nat :: toCome(|q|, mode, n) == ""
    ensures b == toCome(0, Code, 0)
  {
    b := "";
    var n: nat := 0;
    var inQuote := false;
    for i := 0 to |q|
      invariant b + toCome(i, ModeOf(false, inQuote), n) == toCome(0, Code, 0)
    {
      var ch := q[i];
      assert Rebinds(toCome, q, i, ModeOf(false, inQuote), n);
      if ch == '\'' {
        inQuote := !inQuote;
        b := b + [ch];
      } else if ch == '?' && !inQuote {
        n := n + 1;
        b := b + "$";
        b := b + Decimal(n);
      } else {
        b := b + [ch];
      }
    }
  }

  method RebindQuery(q: string) returns (b: string)
    ensures b == Rebound(q)
  {
    if '?' !in q {
      NoPlaceholder(q, Code);
      return q;
    }
    forall i: nat, mode, n: nat | i < |q| ensures Rebinds(ToRebind(q), q, i, mode, n) {
      ToRebindRebinds(q, i, mode, n);
    }
    ReboundIsRest(q, 0);
    assert q[0..] == q;
    b := NumberPlaceholders(q, ToRebind(q));
  }

  /** The number that a text of digits stands for. */
  function NumberOf(s: string): int {
    if s == "" then 0 else 10 * NumberOf(s[..|s| - 1]) + (s[|s| - 1] as int - '0' as int)
  }

  /** `Decimal` writes the number itself, in digits, without a zero in front. */
  lemma {:induction false} DecimalIs(n: nat)
    ensures Decimal(n) != "" && NumberOf(Decimal(n)) == n
    ensures n > 0 ==> Decimal(n)[0] != '0'
  {
    if n >= 10 {
      DecimalIs(n / 10);
      assert Decimal(n)[..|Decimal(n)| - 1] == Decimal(n / 10);
    } else {
      assert [Digit(n)][..0] == "";
    }
  }

  /** The marks count up: one part more takes the next number. */
  lemma {:induction false} NumberedLast(parts: seq<string>, last: string, n: nat)
    requires parts != []
    ensures Numbered(parts + [last], n) == Numbered(parts, n) + ("$" + Decimal(n + |parts| - 1)) + last
    decreases |parts|
  {
    if |parts| == 1 {
      assert (parts + [last])[1..] == [last];
    } else {
      assert (parts + [last])[1..] == parts[1..] + [last];
      NumberedLast(parts[1..], last, n + 1);
    }
  }

  lemma {:induction false} DigitsAreCode(n: nat)
    ensures forall c :: c in Decimal(n) ==> '0' <= c <= '9'
  {
    if n >= 10 { DigitsAreCode(n / 10); }
  }

  lemma {:induction false} WholeThen(s: string, t: string, mode: Mode)
    requires Whole(QUERY, s, mode) && Whole(QUERY, t, EndMode(QUERY, s, mode))
    ensures Whole(QUERY, s + t, mode) && EndMode(QUERY, s + t, mode) == EndMode(QUERY, t, EndMode(QUERY, s, mode))
    decreases |s|
  {
    if s == "" {
      assert s + t == t;
    } else {
      assert (s + t)[1..] == s[1..] + t;
      WholeThen(s[1..], t, Step(QUERY, s, mode));
    }
  }

  lemma {:induction false} OrdinaryIsCode(s: string)
    requires forall c :: c in s ==> c != '?' && c != '\''
    ensures Whole(QUERY, s, Code) && EndMode(QUERY, s, Code) == Code
    decreases |s|
  {
    if s != "" {
      assert s[0] in s && forall c :: c in s[1..] ==> c in s;
      OrdinaryIsCode(s[1..]);
    }
  }

  lemma {:induction false} NumberedIsWhole(parts: seq<string>, n: nat)
    requires Proper(QUERY, parts) && parts != []
    ensures Whole(QUERY, Numbered(parts, n), Code)
    decreases |parts|
  {
    assert parts[0] in parts;
    if |parts| > 1 {
      assert EndMode(QUERY, parts[0], Code) == Code;
      ProperTail(QUERY, parts);
      NumberedIsWhole(parts[1..], n + 1);
      DigitsAreCode(n);
      var mark := "$" + Decimal(n);
      OrdinaryIsCode(mark);
      WholeThen(parts[0], mark, Code);
      WholeThen(parts[0] + mark, Numbered(parts[1..], n + 1), Code);
      assert parts[0] + "$" + Decimal(n) == parts[0] + mark;
    }
  }

  /** The query is its parts with a `?` between each and the next; rebound it is the same parts, so quoted text is
    * unchanged, with `$1`, `$2` and so on between them; no placeholder is left; and rebinding again does nothing. */
  lemma RebindNumbers(q: string)
    ensures Joined(Pieces(QUERY, q), '?') == q && Proper(QUERY, Pieces(QUERY, q))
    ensures Rebound(q) == Numbered(Pieces(QUERY, q), 1)
    ensures Whole(QUERY, Rebound(q), Code)
    ensures Rebound(Rebound(q)) == Rebound(q)
  {
    PiecesJoin(QUERY, q);
    NumberedIsWhole(Pieces(QUERY, q), 1);
  }
}
