/** Expansion of `$secret.NAME` references.
  *
  * The source makes three passes over the text: it replaces escaped dollars by a mark, replaces references by
  * their values, and turns the marks back into dollars. A scanner that reads the text once from left to right
  * says what is meant. The first two passes are that scanner with a mark for each escaped dollar; the third finds
  * besides its own marks whatever read like one already, so that the passes are the scanner exactly when the
  * scanned text holds no mark.
  */
module Expand {
  import opened Wrappers

  /** What the secret store answers for a name. */
  datatype Got = Found(value: string) | Absent | Broken(text: string)

  type Secrets = string -> Got

  const REF := "$secret."
  const NUL: char := '\0'
  const SOH: char := '\U{1}'
  /** What stands in for an escaped dollar between the passes. */
  const MARK: string := [NUL, SOH]

  // ----- Library calls -----

  /** `strings.ReplaceAll`. */
  function ReplaceAll(s: string, from: string, to: string): string
    requires from != ""
    decreases |s|
  {
    if s == "" then ""
    else if from <= s then to + ReplaceAll(s[|from|..], from, to)
    else [s[0]] + ReplaceAll(s[1..], from, to)
  }

  /** `strings.Join` with ", ". */
  function Join(parts: seq<string>): string {
    if parts == [] then ""
    else if |parts| == 1 then parts[0]
    else parts[0] + ", " + Join(parts[1..])
  }

  predicate NameStart(c: char) {
    'A' <= c <= 'Z'
  }

  predicate NameChar(c: char) {
    NameStart(c) || '0' <= c <= '9' || c == '_'
  }

  /** How many name characters `s` starts with. */
  function NameLength(s: string): (n: nat)
    ensures n <= |s|
  {
    if s == "" || !NameChar(s[0]) then 0 else 1 + NameLength(s[1..])
  }

  /** The length of the reference `s` starts with, or 0. */
  function RefLength(s: string): (n: nat)
    ensures n <= |s| && (n == 0 || n > |REF|)
  {
    if REF <= s && |s| > |REF| && NameStart(s[|REF|]) then |REF| + NameLength(s[|REF|..]) else 0
  }

  // ----- The scanner -----

  datatype Token = Dollar | Ref(name: string) | Plain(c: char)

  /** What the text is made of, longest references first come; with `escapes`, "$$" is an escaped dollar. */
  function Tokens(s: string, escapes: bool): seq<Token>
    decreases |s|
  {
    if s == "" then []
    else if escapes && "$$" <= s then [Dollar] + Tokens(s[2..], escapes)
    else if RefLength(s) > 0 then [Ref(s[|REF|..RefLength(s)])] + Tokens(s[RefLength(s)..], escapes)
    else [Plain(s[0])] + Tokens(s[1..], escapes)
  }

  function Shown(get: Secrets, t: Token, dollar: string): string {
    match t
    case Dollar => dollar
    case Ref(name) => if get(name).Found? then get(name).value else REF + name
    case Plain(c) => [c]
  }

  function Render(get: Secrets, tokens: seq<Token>, dollar: string): string {
    if tokens == [] then "" else Shown(get, tokens[0], dollar) + Render(get, tokens[1..], dollar)
  }

  function Complaint(get: Secrets, t: Token): seq<string> {
    if !t.Ref? then []
    else match get(t.name)
      case Found(_) => []
      case Absent => [t.name]
      case Broken(text) => [t.name + " (" + text + ")"]
  }

  function Complaints(get: Secrets, tokens: seq<Token>): seq<string> {
    if tokens == [] then [] else Complaint(get, tokens[0]) + Complaints(get, tokens[1..])
  }

  /** "$$" becomes "$", a reference its value, and a value is never read again. */
  function Scan(get: Secrets, s: string): string {
    Render(get, Tokens(s, true), "$")
  }

  /** The references that cannot be resolved, in order. */
  function Unresolved(get: Secrets, s: string): seq<string> {
    Complaints(get, Tokens(s, true))
  }

  /** What the expansion of `s` amounts to: no text unless every reference is resolved, else the scanned text, in
    * which a mark that was there to begin with reads as an escaped dollar. */
  function Expansion(get: Secrets, s: string): Result<string> {
    if Unresolved(get, s) != [] then Err("unresolved secret references: " + Join(Unresolved(get, s)))
    else Ok(Passes(get, s))
  }

  function Passes(get: Secrets, s: string): string {
    ReplaceAll(Scan(get, s), MARK, "$")
  }

  // ----- What the scanner reads -----

  lemma {:induction false} NameLengthIs(s: string)
    ensures forall i :: 0 <= i < NameLength(s) ==> 'A' <= s[i] <= 'Z' || '0' <= s[i] <= '9' || s[i] == '_'
    ensures NameLength(s) < |s| ==>
              var c := s[NameLength(s)]; !('A' <= c <= 'Z' || '0' <= c <= '9' || c == '_')
    decreases |s|
  {
    if s != "" && NameChar(s[0]) {
      NameLengthIs(s[1..]);
      assert forall i :: 0 < i < |s| ==> s[i] == s[1..][i - 1];
    }
  }

  /** A reference is "$secret." and a name: a capital letter, then as many capitals, digits and underscores as come. */
  lemma RefLengthIs(s: string)
    ensures RefLength(s) > 0 <==> |s| > 8 && s[..8] == "$secret." && 'A' <= s[8] <= 'Z'
    ensures forall i :: 8 <= i < RefLength(s) ==> 'A' <= s[i] <= 'Z' || '0' <= s[i] <= '9' || s[i] == '_'
    ensures 0 < RefLength(s) < |s| ==>
              var c := s[RefLength(s)]; !('A' <= c <= 'Z' || '0' <= c <= '9' || c == '_')
  {
    if REF <= s {
      assert s[..8] == REF;
      NameLengthIs(s[|REF|..]);
      assert forall i :: 8 <= i < |s| ==> s[i] == s[|REF|..][i - 8];
    }
  }

  /** Piece by piece: an escaped dollar, a reference with its value or, unresolved, as it stands, or one character. The
    * missing names are collected as they come, with the store's complaint if it has one. */
  lemma ScanReads(get: Secrets, s: string)
    requires s != ""
    ensures "$$" <= s ==> Scan(get, s) == "$" + Scan(get, s[2..]) && Unresolved(get, s) == Unresolved(get, s[2..])
    ensures var n := RefLength(s);
            !("$$" <= s) && n > 0 ==>
              match get(s[8..n])
              case Found(v) => Scan(get, s) == v + Scan(get, s[n..]) && Unresolved(get, s) == Unresolved(get, s[n..])
              case Absent => Scan(get, s) == s[..n] + Scan(get, s[n..]) && Unresolved(get, s) == [s[8..n]] + Unresolved(get, s[n..])
              case Broken(text) =>
                && Scan(get, s) == s[..n] + Scan(get, s[n..])
                && Unresolved(get, s) == [s[8..n] + " (" + text + ")"] + Unresolved(get, s[n..])
    ensures !("$$" <= s) && RefLength(s) == 0 ==>
              Scan(get, s) == [s[0]] + Scan(get, s[1..]) && Unresolved(get, s) == Unresolved(get, s[1..])
  {
    var n := RefLength(s);
    if n > 0 { assert s[..n] == REF + s[|REF|..n]; }
  }

  lemma {:induction false} JoinIs(parts: seq<string>, last: string)
    ensures Join([]) == "" && Join([last]) == last
    ensures parts != [] ==> Join(parts + [last]) == Join(parts) + (", " + last)
    decreases |parts|
  {
    if |parts| > 1 {
      JoinIs(parts[1..], last);
      assert (parts + [last])[1..] == parts[1..] + [last];
    } else if |parts| == 1 {
      assert (parts + [last])[1..] == [last];
    }
  }

  // ----- The three passes -----

  /** How reading goes on from the first token when no dollar is escaped. */
  lemma FirstReference(get: Secrets, s: string)
    requires s != ""
    ensures var n := RefLength(s);
            n > 0 ==>
              && Render(get, Tokens(s, false), "") == Shown(get, Ref(s[|REF|..n]), "") + Render(get, Tokens(s[n..], false), "")
              && Complaints(get, Tokens(s, false)) == Complaint(get, Ref(s[|REF|..n])) + Complaints(get, Tokens(s[n..], false))
    ensures RefLength(s) == 0 ==>
              && Render(get, Tokens(s, false), "") == [s[0]] + Render(get, Tokens(s[1..], false), "")
              && Complaints(get, Tokens(s, false)) == Complaints(get, Tokens(s[1..], false))
  {
  }

  /** The closure: what a match becomes, and what is noted as missing. */
  method Resolve(get: Secrets, found: string) returns (shown: string, missing: seq<string>)
    requires REF <= found
    ensures shown == Shown(get, Ref(found[|REF|..]), "") && missing == Complaint(get, Ref(found[|REF|..]))
  {
    var name := found[|REF|..];
    shown, missing := found, [];
    match get(name) {
      case Found(v) => shown := v;
      case Absent => missing := [name];
      case Broken(text) => missing := [name + " (" + text + ")"];
    }
  }

  /** A match with what it becomes, or one character as it is. */
  method NextPiece(get: Secrets, rest: string) returns (shown: string, missing: seq<string>, next: string)
    requires rest != ""
    ensures Render(get, Tokens(rest, false), "") == shown + Render(get, Tokens(next, false), "")
    ensures Complaints(get, Tokens(rest, false)) == missing + Complaints(get, Tokens(next, false))
    ensures |next| < |rest|
  {
    FirstReference(get, rest);
    var n := RefLength(rest);
    if n > 0 {
      assert rest[..n][|REF|..] == rest[|REF|..n];
      shown, missing := Resolve(get, rest[..n]);
      next := rest[n..];
    } else {
      shown, missing, next := [rest[0]], [], rest[1..];
    }
  }

  /** A part moved from the front of what is left to the end of what is done. */
  lemma Moved<T>(whole: seq<T>, done: seq<T>, left: seq<T>, part: seq<T>, rest: seq<T>)
    requires done + left == whole && left == part + rest
    ensures (done + part) + rest == whole
  {
  }

  /** `ReplaceAllStringFunc` with the closure that collects what is missing. */
  method ReplaceReferences(get: Secrets, work: string) returns (out: string, missing: seq<string>)
    ensures out == Render(get, Tokens(work, false), "")
    ensures missing == Complaints(get, Tokens(work, false))
  {
    out, missing := "", [];
    var rest := work;
    while rest != ""
      invariant out + Render(get, Tokens(rest, false), "") == Render(get, Tokens(work, false), "")
      invariant missing + Complaints(get, Tokens(rest, false)) == Complaints(get, Tokens(work, false))
      decreases |rest|
    {
      var shown, unknown, next := NextPiece(get, rest);
      Moved(Render(get, Tokens(work, false), ""), out, Render(get, Tokens(rest, false), ""), shown, Render(get, Tokens(next, false), ""));
      Moved(Complaints(get, Tokens(work, false)), missing, Complaints(get, Tokens(rest, false)), unknown, Complaints(get, Tokens(next, false)));
      out, missing, rest := out + shown, missing + unknown, next;
    }
  }

  lemma ExpansionIs(get: Secrets, s: string)
    ensures var r := Expansion(get, s);
            && (r.Err? <==> Unresolved(get, s) != [])
            && (r.Err? ==> r.message == "unresolved secret references: " + Join(Unresolved(get, s)))
            && (r.Ok? ==> r.value == ReplaceAll(Scan(get, s), ['\0', '\U{1}'], "$"))
  {
  }

  /** Either every reference is resolved, or there is no text at all, and the error names the missing ones. */
  method ExpandValue(get: Secrets, s: string) returns (r: Result<string>)
    ensures r == Expansion(get, s)
  {
    var work := ReplaceAll(s, "$$", MARK);
    var out, missing := ReplaceReferences(get, work);
    EscapeThenReplace(get, s);
    out := ReplaceAll(out, MARK, "$");
    MarksRestored(get, Tokens(s, true));
    if |missing| > 0 { return Err("unresolved secret references: " + Join(missing)); }
    r := Ok(out);
  }

  function Lines(get: Secrets, env: seq<string>): seq<Result<string>> {
    seq(|env|, i requires 0 <= i < |env| => Expansion(get, env[i]))
  }

  lemma LinesOfMore(get: Secrets, env: seq<string>, i: nat)
    requires i < |env|
    ensures Lines(get, env[..i + 1]) == Lines(get, env[..i]) + [Expansion(get, env[i])]
  {
  }

  function TextOf(r: Result<string>): string {
    if r.Ok? then r.value else ""
  }

  lemma TextOfIs(value: string, message: string)
    ensures TextOf(Ok(value)) == value && TextOf(Err(message)) == ""
  {
  }

  function Texts(lines: seq<Result<string>>): seq<string> {
    seq(|lines|, i requires 0 <= i < |lines| => TextOf(lines[i]))
  }

  lemma TextsOfMore(lines: seq<Result<string>>, last: Result<string>)
    ensures Texts(lines + [last]) == Texts(lines) + [TextOf(last)]
  {
  }

  lemma TextsAre(get: Secrets, env: seq<string>)
    ensures var out := Texts(Lines(get, env));
            |out| == |env| && forall i :: 0 <= i < |env| ==> out[i] == TextOf(Expansion(get, env[i]))
  {
  }

  /** The error of the first line that has one. */
  function FirstError(lines: seq<Result<string>>): Option<string> {
    if lines == [] then None
    else if lines[0].Err? then Some(lines[0].message)
    else FirstError(lines[1..])
  }

  lemma {:induction false} FirstErrorOfMore(lines: seq<Result<string>>, last: Result<string>)
    ensures FirstError([]) == None
    ensures FirstError(lines + [last]) ==
              if FirstError(lines) == None && last.Err? then Some(last.message) else FirstError(lines)
    decreases |lines|
  {
    if lines == [] {
      assert lines + [last] == [last];
    } else {
      assert (lines + [last])[1..] == lines[1..] + [last];
      FirstErrorOfMore(lines[1..], last);
    }
  }

  /** Line by line, an empty text where there is an error; the first error is reported. */
  method ExpandEnv(get: Secrets, env: seq<string>) returns (out: seq<string>, firstErr: Option<string>)
    ensures out == Texts(Lines(get, env))
    ensures firstErr == FirstError(Lines(get, env))
  {
    out, firstErr := [], None;
    ghost var lines: seq<Result<string>> := [];
    for i := 0 to |env|
      invariant lines == Lines(get, env[..i])
      invariant out == Texts(lines)
      invariant firstErr == FirstError(lines)
    {
      var expanded := ExpandValue(get, env[i]);
      LinesOfMore(get, env, i);
      TextsOfMore(lines, expanded);
      FirstErrorOfMore(lines, expanded);
      if expanded.Err? && firstErr == None {
        firstErr := Some(expanded.message);
      }
      out := out + [TextOf(expanded)];
      lines := lines + [expanded];
    }
    assert env[..|env|] == env;
  }

  /** The value of a text that is one reference and nothing else; no answer for any other text. */
  function LookupRef(get: Secrets, ref: string): Result<Option<string>> {
    if ref == "" || RefLength(ref) != |ref| then Ok(None)
    else match get(ref[|REF|..])
      case Found(v) => Ok(Some(v))
      case Absent => Err("unresolved secret reference: " + ref)
      case Broken(text) => Err(text)
  }

  /** It answers exactly for "$secret." and a name with nothing after, and then with the value or the store's complaint. */
  lemma LookupRefIs(get: Secrets, ref: string)
    ensures LookupRef(get, ref) == Ok(None) <==>
              !(|ref| > 8 && ref[..8] == "$secret." && 'A' <= ref[8] <= 'Z'
                && forall i :: 8 <= i < |ref| ==> 'A' <= ref[i] <= 'Z' || '0' <= ref[i] <= '9' || ref[i] == '_')
    ensures LookupRef(get, ref) != Ok(None) ==>
              LookupRef(get, ref) == match get(ref[8..])
                                     case Found(v) => Ok(Some(v))
                                     case Absent => Err("unresolved secret reference: " + ref)
                                     case Broken(text) => Err(text)
  {
    RefLengthIs(ref);
  }

  /** Where it answers, expansion gives the same text, save for marks in the value; where it fails, so does expansion. */
  lemma LookupRefAgrees(get: Secrets, ref: string)
    ensures LookupRef(get, ref).Err? ==> Expansion(get, ref).Err?
    ensures LookupRef(get, ref).Ok? && LookupRef(get, ref).value != None ==>
              Expansion(get, ref) == Ok(ReplaceAll(LookupRef(get, ref).value.value, MARK, "$"))
  {
    if ref != "" && RefLength(ref) == |ref| { RefAlone(get, ref); }
  }

  lemma RefAlone(get: Secrets, ref: string)
    requires ref != "" && RefLength(ref) == |ref|
    ensures Scan(get, ref) == Shown(get, Ref(ref[|REF|..]), "$")
    ensures Unresolved(get, ref) == Complaint(get, Ref(ref[|REF|..]))
  {
    var only := Ref(ref[|REF|..]);
    assert REF <= ref && ref[1] == REF[1];
    assert ref[|REF|..|ref|] == ref[|REF|..];
    RefFirst(ref);
    assert ref[|ref|..] == "";
    assert [only] + [] == [only];
    OneToken(get, only);
  }

  lemma RefFirst(s: string)
    requires RefLength(s) > 0 && !("$$" <= s)
    ensures Tokens(s, true) == [Ref(s[|REF|..RefLength(s)])] + Tokens(s[RefLength(s)..], true)
  {
  }

  lemma OneToken(get: Secrets, t: Token)
    ensures Render(get, [t], "$") == Shown(get, t, "$")
    ensures Complaints(get, [t]) == Complaint(get, t)
  {
    assert [t][1..] == [];
  }

  // ----- Escaping hides no reference and makes none -----

  lemma {:induction false} EscapeKeepsPrefix(s: string, p: string)
    requires forall c :: c in p ==> c != '$' && c != NUL
    ensures p <= ReplaceAll(s, "$$", MARK) <==> p <= s
    ensures p <= s ==> ReplaceAll(s, "$$", MARK)[|p|..] == ReplaceAll(s[|p|..], "$$", MARK)
    decreases |p|
  {
    var e := ReplaceAll(s, "$$", MARK);
    if p == "" {
      assert s[0..] == s && e[0..] == e;
    } else {
      assert p[0] in p && p == [p[0]] + p[1..];
      assert forall c :: c in p[1..] ==> c in p;
      if s != "" && s[0] == p[0] {
        EscapeKeepsPrefix(s[1..], p[1..]);
        assert e == [s[0]] + ReplaceAll(s[1..], "$$", MARK);
        Cons(p, e);
        Cons(p, s);
        if p <= s { assert s[1..][|p[1..]|..] == s[|p|..] && e[1..][|p[1..]|..] == e[|p|..]; }
      } else if s != "" {
        assert e != "" && e[0] != p[0];
      }
    }
  }

  lemma Cons(p: string, s: string)
    requires p != "" && s != "" && p[0] == s[0]
    ensures p <= s <==> p[1..] <= s[1..]
  {
    assert p == [p[0]] + p[1..] && s == [s[0]] + s[1..];
    if p[1..] <= s[1..] { assert s == p + s[1..][|p[1..]|..]; }
    if p <= s { assert s[1..] == p[1..] + s[|p|..]; }
  }

  lemma {:induction false} EscapeKeepsName(s: string)
    ensures var n, e := NameLength(s), ReplaceAll(s, "$$", MARK);
            NameLength(e) == n && e[..n] == s[..n] && e[n..] == ReplaceAll(s[n..], "$$", MARK)
    decreases |s|
  {
    if s != "" && NameChar(s[0]) {
      EscapeKeepsName(s[1..]);
      var n, e := NameLength(s), ReplaceAll(s, "$$", MARK);
      assert e[1..] == ReplaceAll(s[1..], "$$", MARK);
      assert e[1..][..n - 1] == e[1..n] && s[1..][..n - 1] == s[1..n];
      assert e[1..][n - 1..] == e[n..] && s[1..][n - 1..] == s[n..];
    }
  }

  lemma EscapeKeepsRef(s: string)
    requires s != "" && !("$$" <= s)
    ensures var n, e := RefLength(s), ReplaceAll(s, "$$", MARK);
            RefLength(e) == n && e[..n] == s[..n] && e[n..] == ReplaceAll(s[n..], "$$", MARK)
  {
    var e, word := ReplaceAll(s, "$$", MARK), "secret.";
    assert e == [s[0]] + ReplaceAll(s[1..], "$$", MARK) && e[1..] == ReplaceAll(s[1..], "$$", MARK);
    EscapeKeepsPrefix(s[1..], word);
    assert REF == ['$'] + word && REF[1..] == word;
    if s[0] == '$' {
      Cons(REF, s);
      Cons(REF, e);
      if REF <= s {
        assert s[|REF|..] == s[1..][|word|..] && e[|REF|..] == e[1..][|word|..];
        EscapeKeepsName(s[|REF|..]);
        RefFollows(s, e);
      }
    }
  }

  lemma RefFollows(s: string, e: string)
    requires REF <= s && REF <= e
    requires var n := NameLength(s[|REF|..]);
             NameLength(e[|REF|..]) == n && e[|REF|..][..n] == s[|REF|..][..n]
             && e[|REF|..][n..] == ReplaceAll(s[|REF|..][n..], "$$", MARK)
    requires e == ReplaceAll(s, "$$", MARK)
    ensures var n := RefLength(s);
            RefLength(e) == n && e[..n] == s[..n] && e[n..] == ReplaceAll(s[n..], "$$", MARK)
  {
    var n := NameLength(s[|REF|..]);
    var m := |REF| + n;
    assert s[|REF|..][n..] == s[m..] && e[|REF|..][n..] == e[m..];
    assert s[..m] == REF + s[|REF|..][..n] && e[..m] == REF + e[|REF|..][..n];
    if n > 0 { assert s[|REF|] == s[|REF|..][..n][0] && e[|REF|] == e[|REF|..][..n][0]; }
  }

  /** The first two passes leave what the scanner shows with a mark for each escaped dollar, and miss the same names. */
  lemma {:induction false} EscapeThenReplace(get: Secrets, s: string)
    ensures Render(get, Tokens(ReplaceAll(s, "$$", MARK), false), "") == Render(get, Tokens(s, true), MARK)
    ensures Complaints(get, Tokens(ReplaceAll(s, "$$", MARK), false)) == Complaints(get, Tokens(s, true))
    decreases |s|
  {
    var e := ReplaceAll(s, "$$", MARK);
    if s == "" {
    } else if "$$" <= s {
      EscapeThenReplace(get, s[2..]);
      TwoPlain(get, NUL, SOH, ReplaceAll(s[2..], "$$", MARK));
    } else {
      EscapeKeepsRef(s);
      var n := RefLength(s);
      EscapeThenReplace(get, s[if n > 0 then n else 1..]);
      if n > 0 { assert s[|REF|..n] == s[..n][|REF|..] && e[|REF|..n] == e[..n][|REF|..]; }
    }
  }

  lemma {:induction false} TwoPlain(get: Secrets, c: char, d: char, rest: string)
    requires c != '$' && d != '$'
    ensures Render(get, Tokens([c, d] + rest, false), "") == [c, d] + Render(get, Tokens(rest, false), "")
    ensures Complaints(get, Tokens([c, d] + rest, false)) == Complaints(get, Tokens(rest, false))
  {
    TwoFirst(c, d, rest);
    TwoRendered(get, c, d, Tokens(rest, false));
  }

  lemma {:induction false} TwoFirst(c: char, d: char, rest: string)
    requires c != '$' && d != '$'
    ensures Tokens([c, d] + rest, false) == [Plain(c)] + ([Plain(d)] + Tokens(rest, false))
  {
    PlainFirst(d, rest);
    PlainFirst(c, [d] + rest);
    assert [c, d] + rest == [c] + ([d] + rest);
  }

  lemma {:induction false} TwoRendered(get: Secrets, c: char, d: char, tokens: seq<Token>)
    ensures Render(get, [Plain(c)] + ([Plain(d)] + tokens), "") == [c, d] + Render(get, tokens, "")
    ensures Complaints(get, [Plain(c)] + ([Plain(d)] + tokens)) == Complaints(get, tokens)
  {
    PlainRendered(get, c, [Plain(d)] + tokens);
    PlainRendered(get, d, tokens);
  }

  lemma {:induction false} PlainFirst(c: char, rest: string)
    requires c != '$'
    ensures Tokens([c] + rest, false) == [Plain(c)] + Tokens(rest, false)
  {
    var s := [c] + rest;
    assert s[0] == c && s[1..] == rest;
    assert !("$$" <= s) && RefLength(s) == 0;
  }

  lemma {:induction false} PlainRendered(get: Secrets, c: char, tokens: seq<Token>)
    ensures Render(get, [Plain(c)] + tokens, "") == [c] + Render(get, tokens, "")
    ensures Complaints(get, [Plain(c)] + tokens) == Complaints(get, tokens)
  {
    assert ([Plain(c)] + tokens)[1..] == tokens;
  }

  // ----- Restoring the marks -----

  /** A text with the places of the marks known. */
  datatype Item = Mark | Ch(c: char)

  function Text(items: seq<Item>, dollar: string): string {
    if items == [] then ""
    else (if items[0].Mark? then dollar else [items[0].c]) + Text(items[1..], dollar)
  }

  function Chars(s: string): seq<Item> {
    seq(|s|, i requires 0 <= i < |s| => Ch(s[i]))
  }

  function Items(get: Secrets, tokens: seq<Token>): seq<Item> {
    if tokens == [] then []
    else (if tokens[0].Dollar? then [Mark] else Chars(Shown(get, tokens[0], ""))) + Items(get, tokens[1..])
  }

  lemma {:induction false} TextOfChars(s: string, rest: seq<Item>, dollar: string)
    ensures Text(Chars(s) + rest, dollar) == s + Text(rest, dollar)
    decreases |s|
  {
    if s == "" {
      assert Chars(s) + rest == rest;
    } else {
      assert (Chars(s) + rest)[1..] == Chars(s[1..]) + rest;
      TextOfChars(s[1..], rest, dollar);
    }
  }

  lemma {:induction false} RenderIsText(get: Secrets, tokens: seq<Token>, dollar: string)
    ensures Render(get, tokens, dollar) == Text(Items(get, tokens), dollar)
    decreases |tokens|
  {
    if tokens != [] {
      RenderIsText(get, tokens[1..], dollar);
      if tokens[0].Dollar? {
        assert ([Mark] + Items(get, tokens[1..]))[1..] == Items(get, tokens[1..]);
      } else {
        TextOfChars(Shown(get, tokens[0], ""), Items(get, tokens[1..]), dollar);
      }
    }
  }

  lemma TextFront(items: seq<Item>, c: char, dollar: string)
    requires items != [] && items[0] == Ch(c)
    ensures Text(items, dollar)[0] == c && Text(items, dollar)[1..] == Text(items[1..], dollar)
  {
  }

  /** Restoring finds every mark, and besides the marks only what reads like one already. */
  lemma {:induction false} RestoreItems(items: seq<Item>)
    ensures ReplaceAll(Text(items, MARK), MARK, "$") == ReplaceAll(Text(items, "$"), MARK, "$")
    decreases |items|
  {
    if items != [] {
      var m, d := Text(items, MARK), Text(items, "$");
      if items[0].Mark? {
        RestoreItems(items[1..]);
        assert MARK <= m && m[2..] == Text(items[1..], MARK);
        assert d[0] == '$' && !(MARK <= d) && d[1..] == Text(items[1..], "$");
      } else {
        TextFront(items, items[0].c, MARK);
        TextFront(items, items[0].c, "$");
        if |items| > 1 && items[0] == Ch(NUL) && items[1] == Ch(SOH) {
          TextFront(items[1..], SOH, MARK);
          TextFront(items[1..], SOH, "$");
          RestoreItems(items[2..]);
          assert items[1..][1..] == items[2..];
          assert m[2..] == m[1..][1..] && d[2..] == d[1..][1..];
          assert MARK <= m && MARK <= d;
        } else {
          RestoreItems(items[1..]);
          assert |items| > 1 ==> m[1] == m[1..][0] && d[1] == d[1..][0];
          assert !(MARK <= m) && !(MARK <= d);
        }
      }
    }
  }

  lemma MarksRestored(get: Secrets, tokens: seq<Token>)
    ensures ReplaceAll(Render(get, tokens, MARK), MARK, "$") == ReplaceAll(Render(get, tokens, "$"), MARK, "$")
  {
    RenderIsText(get, tokens, MARK);
    RenderIsText(get, tokens, "$");
    RestoreItems(Items(get, tokens));
  }

  // ----- When the passes are the scanner -----

  predicate HasMark(s: string) {
    |s| >= 2 && (MARK <= s || HasMark(s[1..]))
  }

  lemma {:induction false} RestoreChangesIff(s: string)
    ensures |ReplaceAll(s, MARK, "$")| <= |s|
    ensures HasMark(s) ==> |ReplaceAll(s, MARK, "$")| < |s|
    ensures !HasMark(s) ==> ReplaceAll(s, MARK, "$") == s
    decreases |s|
  {
    if s != "" {
      if MARK <= s { RestoreChangesIff(s[2..]); } else { RestoreChangesIff(s[1..]); }
    }
  }

  /** The three passes are the scanner exactly when the scanned text holds no mark of its own. */
  lemma PassesAreScannerIff(get: Secrets, s: string)
    ensures Passes(get, s) == Scan(get, s) <==> !HasMark(Scan(get, s))
  {
    RestoreChangesIff(Scan(get, s));
  }

  /** No value holds a NUL. */
  ghost predicate Clean(get: Secrets) {
    forall name :: get(name).Found? ==> NUL !in get(name).value
  }

  /** A NUL directly before an SOH or a reference. */
  predicate Risky(s: string) {
    && |s| >= 2
    && ((s[0] == NUL && (s[1] == SOH || RefLength(s[1..]) > 0)) || Risky(s[1..]))
  }

  lemma {:induction false} NoNulNotRisky(s: string)
    requires NUL !in s
    ensures !Risky(s)
    decreases |s|
  {
    if |s| >= 2 {
      assert s[0] in s && forall c :: c in s[1..] ==> c in s;
      NoNulNotRisky(s[1..]);
    }
  }

  lemma {:induction false} RiskyTail(s: string, n: nat)
    requires n <= |s| && forall i :: 0 <= i < n ==> s[i] != NUL
    ensures Risky(s) <==> Risky(s[n..])
    decreases n
  {
    if n > 0 {
      RiskyTail(s[1..], n - 1);
      assert s[1..][n - 1..] == s[n..];
    } else {
      assert s[0..] == s;
    }
  }

  lemma {:induction false} NoMarkAcross(a: string, b: string)
    requires NUL !in a
    ensures HasMark(a + b) <==> HasMark(b)
    decreases |a|
  {
    if a == "" {
      assert a + b == b;
    } else {
      assert a[0] in a && forall c :: c in a[1..] ==> c in a;
      NoMarkAcross(a[1..], b);
      assert (a + b)[1..] == a[1..] + b;
      assert (a + b)[0] != NUL;
    }
  }

  lemma ShownHasNoNul(get: Secrets, s: string)
    requires Clean(get) && RefLength(s) > 0
    ensures NUL !in Shown(get, Ref(s[|REF|..RefLength(s)]), "$")
  {
    RefHasNoNul(s);
    assert s[..RefLength(s)] == REF + s[|REF|..RefLength(s)];
    forall c | c in s[..RefLength(s)] ensures c != NUL {
      var i :| 0 <= i < RefLength(s) && s[i] == c;
    }
  }

  lemma RefHasNoNul(s: string)
    requires RefLength(s) > 0
    ensures forall i :: 0 <= i < RefLength(s) ==> s[i] != NUL
  {
    NameHasNoNul(s[|REF|..]);
    forall i | 0 <= i < RefLength(s) ensures s[i] != NUL {
      if i < |REF| { assert s[i] == REF[i]; } else { assert s[i] == s[|REF|..][i - |REF|]; }
    }
  }

  lemma {:induction false} NameHasNoNul(s: string)
    ensures forall i :: 0 <= i < NameLength(s) ==> s[i] != NUL
    decreases |s|
  {
    if s != "" && NameChar(s[0]) {
      NameHasNoNul(s[1..]);
      forall i | 0 <= i < NameLength(s) ensures s[i] != NUL {
        if i > 0 { assert s[i] == s[1..][i - 1]; }
      }
    }
  }

  /** How the scanner goes on from the first token. */
  lemma ScanFront(get: Secrets, s: string)
    requires s != ""
    ensures "$$" <= s ==> Scan(get, s) == "$" + Scan(get, s[2..])
    ensures !("$$" <= s) && RefLength(s) > 0 ==>
              Scan(get, s) == Shown(get, Ref(s[|REF|..RefLength(s)]), "$") + Scan(get, s[RefLength(s)..])
    ensures !("$$" <= s) && RefLength(s) == 0 ==> Scan(get, s) == [s[0]] + Scan(get, s[1..])
  {
  }

  /** The first piece of the text, when there is no NUL in it, takes no part. */
  lemma SkipPiece(s: string, n: nat, shown: string, rest: string)
    requires 0 < n <= |s| && (forall i :: 0 <= i < n ==> s[i] != NUL) && NUL !in shown
    ensures Risky(s) <==> Risky(s[n..])
    ensures HasMark(shown + rest) <==> HasMark(rest)
  {
    RiskyTail(s, n);
    NoMarkAcross(shown, rest);
  }

  lemma {:induction false} MarkIffRisky(get: Secrets, s: string)
    requires Clean(get)
    ensures !Risky(s) ==> !HasMark(Scan(get, s))
    ensures Risky(s) && (forall name :: get(name) == Found([SOH])) ==> HasMark(Scan(get, s))
    decreases |s|
  {
    if s != "" {
      ScanFront(get, s);
      if "$$" <= s {
        MarkIffRisky(get, s[2..]);
        SkipPiece(s, 2, "$", Scan(get, s[2..]));
      } else if RefLength(s) > 0 {
        MarkIffRisky(get, s[RefLength(s)..]);
        RefHasNoNul(s);
        ShownHasNoNul(get, s);
        SkipPiece(s, RefLength(s), Shown(get, Ref(s[|REF|..RefLength(s)]), "$"), Scan(get, s[RefLength(s)..]));
      } else {
        MarkIffRisky(get, s[1..]);
        if s[0] != NUL {
          SkipPiece(s, 1, [s[0]], Scan(get, s[1..]));
        } else {
          AfterNul(get, s, Scan(get, s[1..]));
        }
      }
    }
  }

  lemma AfterNul(get: Secrets, s: string, rest: string)
    requires s != "" && s[0] == NUL && rest == Scan(get, s[1..])
    ensures !Risky(s) && !HasMark(rest) ==> !HasMark([NUL] + rest)
    ensures Risky(s) && (Risky(s[1..]) ==> HasMark(rest)) && (forall name :: get(name) == Found([SOH])) ==>
              HasMark([NUL] + rest)
  {
    var t := [NUL] + rest;
    assert t[1..] == rest;
    if |s| > 1 { SohFirst(get, s[1..]); }
  }

  /** When the scanned text begins with an SOH. */
  lemma SohFirst(get: Secrets, s: string)
    requires s != ""
    ensures s[0] == SOH ==> Scan(get, s) != "" && Scan(get, s)[0] == SOH
    ensures RefLength(s) > 0 && (forall name :: get(name) == Found([SOH])) ==> Scan(get, s) != "" && Scan(get, s)[0] == SOH
    ensures s[0] != SOH && RefLength(s) == 0 ==> Scan(get, s) != "" && Scan(get, s)[0] != SOH
  {
    ScanFront(get, s);
    if RefLength(s) > 0 { assert REF <= s && s[1] == REF[1]; }
  }

  /** Whatever NUL-free values the secrets have, the three passes are the scanner exactly when no NUL of the text
    * stands directly before an SOH or a reference. */
  lemma AgreesAlwaysIff(s: string)
    ensures (forall get: Secrets :: Clean(get) ==> Passes(get, s) == Scan(get, s)) <==> !Risky(s)
  {
    if Risky(s) {
      var get: Secrets := (name: string) => Found([SOH]);
      MarkIffRisky(get, s);
      PassesAreScannerIff(get, s);
      assert Clean(get) && Passes(get, s) != Scan(get, s);
    } else {
      forall get: Secrets | Clean(get) ensures Passes(get, s) == Scan(get, s) {
        MarkIffRisky(get, s);
        PassesAreScannerIff(get, s);
      }
    }
  }

  /** In particular for every text without a NUL. */
  lemma NulFreeAgrees(get: Secrets, s: string)
    requires Clean(get) && NUL !in s
    ensures Passes(get, s) == Scan(get, s)
  {
    NoNulNotRisky(s);
    MarkIffRisky(get, s);
    PassesAreScannerIff(get, s);
  }
}
