/** `$VAR` and `${...}` substitution in Dockerfile strings. */
module Substitute {
  import opened Wrappers
  import Tokenizer
  import opened Strings

  type Vars = map<string, string>

  predicate IsVarStart(c: char) {
    'A' <= c <= 'Z' || 'a' <= c <= 'z' || c == '_'
  }

  predicate IsVarChar(c: char) {
    IsVarStart(c) || '0' <= c <= '9'
  }

  // ── Tokens ──────────────────────────────────────────────────────────

  /** A piece of the input: an ordinary character, `$$`, `${inner}`, `$name`, or a dollar sign
      that starts none of these. */
  datatype Token = Plain(c: char) | Escape | Braced(inner: string) | Named(name: string) | Lone

  function Text(t: Token): string {
    match t
    case Plain(c) => [c]
    case Escape => "$$"
    case Braced(inner) => "${" + inner + "}"
    case Named(name) => "$" + name
    case Lone => "$"
  }

  function Texts(ts: seq<Token>): string {
    Concat(Text, ts)
  }

  // ── Braces ──────────────────────────────────────────────────────────

  /** Nesting depth after reading s inside one open brace. */
  function Depth(s: string): int {
    if s == "" then 1
    else
      var d := Depth(s[..|s| - 1]);
      if s[|s| - 1] == '{' then d + 1 else if s[|s| - 1] == '}' then d - 1 else d
  }

  /** Where the brace opened before s is closed: the first closing one at depth one. */
  ghost function Closing(s: string): Option<nat> {
    if s == "" then None
    else
      var n := |s| - 1;
      match Closing(s[..n])
      case Some(k) => Some(k)
      case None => if s[n] == '}' && Depth(s[..n]) == 1 then Some(n) else None
  }

  lemma {:induction false} ClosingIs(s: string)
    ensures match Closing(s)
            case Some(k) => k < |s| && s[k] == '}' && Depth(s[..k]) == 1 && Closing(s[..k]) == None
            case None => forall k | 0 <= k <= |s| :: Depth(s[..k]) > 0
  {
    if s != "" {
      var n := |s| - 1;
      ClosingIs(s[..n]);
      assert forall k | 0 <= k <= n :: s[..n][..k] == s[..k];
      assert s[..|s|] == s;
    }
  }

  /** Once closed, it stays closed there. */
  lemma {:induction false} ClosingStays(s: string, k: nat)
    requires k <= |s| && Closing(s[..k]).Some?
    ensures Closing(s) == Closing(s[..k])
  {
    if k == |s| {
      assert s[..k] == s;
    } else {
      assert s[..|s| - 1][..k] == s[..k];
      ClosingStays(s[..|s| - 1], k);
    }
  }

  /** `find_closing_brace` */
  method FindClosingBrace(input: string, start: nat) returns (r: Option<nat>)
    requires start <= |input|
    ensures match Closing(input[start..])
            case None => r == None
            case Some(k) => r == Some(start + k) && start + k < |input|
  {
    var depth: int := 1;
    var j := start;
    while j < |input|
      invariant start <= j <= |input|
      invariant depth == Depth(input[start..j])
      invariant Closing(input[start..j]) == None
    {
      assert input[start..j + 1][..j - start] == input[start..j];
      if input[j] == '{' {
        depth := depth + 1;
      } else if input[j] == '}' {
        depth := depth - 1;
        if depth == 0 {
          assert input[start..][..j + 1 - start] == input[start..j + 1];
          ClosingStays(input[start..], j + 1 - start);
          return Some(j);
        }
      }
      j := j + 1;
    }
    assert input[start..j] == input[start..];
    r := None;
  }

  // ── The grammar ─────────────────────────────────────────────────────

  ghost predicate Legal(t: Token) {
    match t
    case Plain(c) => c != '$'
    case Braced(inner) => Closing(inner + "}") == Some(|inner|)
    case Named(name) => name != "" && IsVarStart(name[0]) && forall i | 0 <= i < |name| :: IsVarChar(name[i])
    case _ => true
  }

  /** What may follow: a name is as long as possible, and a lone dollar sign starts nothing. */
  predicate Ends(t: Token, rest: string) {
    match t
    case Named(_) => rest == "" || !IsVarChar(rest[0])
    case Lone => rest == "" || (rest[0] != '$' && rest[0] != '{' && !IsVarStart(rest[0]))
    case _ => true
  }

  ghost predicate Starts(t: Token, input: string) {
    Legal(t) && Text(t) <= input && Ends(t, input[|Text(t)|..])
  }

  /** What is left of rest behind the token t, if it starts with it. */
  ghost function Cut(t: Token, rest: string): Option<string> {
    if Starts(t, rest) then Some(rest[|Text(t)|..]) else None
  }

  /** The tokens ts make up input, up to rest. */
  ghost predicate Tokenizes(ts: seq<Token>, input: string, rest: string) {
    Tokenizer.Behind(Cut, ts, input) == Some(rest)
  }

  /** Nothing is lost. */
  lemma TokensAreInput(ts: seq<Token>, input: string, rest: string)
    requires Tokenizes(ts, input, rest)
    ensures input == Texts(ts) + rest
  {
    forall t: Token, s: string ensures CutsText(Cut, t, s) { CutIs(t, s); }
    TextsAreInput(Cut, ts, input, rest);
  }

  ghost predicate CutsText(cut: Tokenizer.Cutter<Token>, t: Token, s: string) {
    cut(t, s).Some? ==> s == Text(t) + cut(t, s).value
  }

  lemma CutIs(t: Token, s: string)
    ensures CutsText(Cut, t, s)
  {
  }

  lemma {:induction false} TextsAreInput(cut: Tokenizer.Cutter<Token>, ts: seq<Token>, input: string, rest: string)
    requires Tokenizer.Behind(cut, ts, input) == Some(rest) && forall t: Token, s: string :: CutsText(cut, t, s)
    ensures input == Texts(ts) + rest
  {
    if ts != [] {
      var init, last := ts[..|ts| - 1], ts[|ts| - 1];
      var before := Tokenizer.Behind(cut, init, input).value;
      TextsAreInput(cut, init, input, before);
      assert CutsText(cut, last, before);
      Associates(Texts(init), Text(last), rest);
    }
  }

  /** What a token's first characters look like. */
  lemma StartsLike(t: Token, input: string)
    requires Starts(t, input)
    ensures input != ""
    ensures match t
            case Plain(c) => input[0] != '$' && c == input[0]
            case Escape => |input| > 1 && input[0] == '$' && input[1] == '$'
            case Braced(inner) => |input| > 2 && input[0] == '$' && input[1] == '{' && inner + "}" <= input[2..]
            case Named(name) =>
              && |input| > 1 && input[0] == '$' && IsVarStart(input[1])
              && name <= input[1..] && Ends(t, input[1..][|name|..])
            case Lone => input[0] == '$' && Ends(t, input[1..])
  {
    match t
    case Braced(inner) =>
      assert Text(t) == ['$', '{'] + (inner + "}");
      assert inner + "}" == Text(t)[2..];
    case Named(name) =>
      assert name == Text(t)[1..];
      assert input[1..][|name|..] == input[|Text(t)|..];
    case _ =>
  }

  /** The closing brace is determined. */
  lemma OneClosingBrace(inner: string, input: string)
    requires Closing(inner + "}") == Some(|inner|) && inner + "}" <= input
    ensures Closing(input) == Some(|inner|)
  {
    assert input[..|inner| + 1] == inner + "}";
    ClosingStays(input, |inner| + 1);
  }

  lemma OneName(m: string, n: string, after: string)
    requires m <= after && n <= after && Ends(Named(n), after[|n|..])
    requires forall i | 0 <= i < |m| :: IsVarChar(m[i])
    ensures |m| <= |n|
  {
    var rest := after[|n|..];
    assert rest != "" ==> rest[0] == after[|n|];
  }

  /** At most one token starts a given input. */
  lemma OneToken(t: Token, u: Token, input: string)
    requires Starts(t, input) && Starts(u, input)
    ensures t == u
  {
    StartsLike(t, input);
    StartsLike(u, input);
    var rest := input[1..];
    assert rest != "" ==> rest[0] == input[1];
    if t.Braced? && u.Braced? {
      OneClosingBrace(t.inner, input[2..]);
      OneClosingBrace(u.inner, input[2..]);
    } else if t.Named? && u.Named? {
      OneName(t.name, u.name, rest);
      OneName(u.name, t.name, rest);
    }
  }

  lemma CutUnambiguous()
    ensures Tokenizer.Unambiguous(Cut)
  {
    forall t: Token, u: Token, s: string | Cut(t, s).Some? && Cut(u, s).Some? ensures t == u { OneToken(t, u, s); }
    forall t: Token ensures Cut(t, "").None? { NothingStarts(t); }
  }

  lemma NothingStarts(t: Token)
    ensures !Starts(t, "")
  {
    if Starts(t, "") { StartsLike(t, ""); }
  }

  /** So the grammar is unambiguous. */
  lemma OneTokenization(ts: seq<Token>, us: seq<Token>, input: string)
    requires Tokenizes(ts, input, "") && Tokenizes(us, input, "")
    ensures ts == us
  {
    CutUnambiguous();
    Tokenizer.OneWay(Cut, ts, us, input);
  }

  // ── Values ──────────────────────────────────────────────────────────

  function Lookup(vars: Vars, name: string): string {
    if name in vars then vars[name] else ""
  }

  /** `expand_braced`: `:-` anywhere is looked for before `:+`. */
  function ExpandBraced(inner: string, vars: Vars): string {
    match Find(inner, ":-")
    case Some(pos) =>
      var val := Lookup(vars, inner[..pos]);
      if val != "" then val else inner[pos + 2..]
    case None =>
      match Find(inner, ":+")
      case Some(pos) => if Lookup(vars, inner[..pos]) != "" then inner[pos + 2..] else ""
      case None => Lookup(vars, inner)
  }

  function TokenValue(t: Token, vars: Vars): string {
    match t
    case Plain(c) => [c]
    case Escape => "$"
    case Lone => "$"
    case Named(name) => Lookup(vars, name)
    case Braced(inner) => ExpandBraced(inner, vars)
  }

  function Valuation(vars: Vars): Token -> string {
    t => TokenValue(t, vars)
  }

  function Values(ts: seq<Token>, vars: Vars): string {
    Concat(Valuation(vars), ts)
  }

  // ── The scanner ─────────────────────────────────────────────────────

  /** `var_name_end` */
  method VarNameEnd(input: string, start: nat) returns (end: nat)
    requires start <= |input|
    ensures start <= end <= |input|
    ensures forall i | start <= i < end :: IsVarChar(input[i])
    ensures end < |input| ==> !IsVarChar(input[end])
  {
    end := start;
    while end < |input| && IsVarChar(input[end])
      invariant start <= end <= |input|
      invariant forall i | start <= i < end :: IsVarChar(input[i])
    {
      end := end + 1;
    }
  }

  /** Where a `${` is closed. */
  ghost function ClosingOf(rest: string): Option<nat> {
    if "${" <= rest then Closing(rest[2..]) else Some(0)
  }

  /** A `${` without a closing brace. */
  ghost predicate Unclosed(rest: string) {
    ClosingOf(rest) == None
  }

  /** A reached `${` that is never closed admits no tokenization, so substitution fails exactly
      when there is none. */
  lemma UnclosedFails(ts: seq<Token>, us: seq<Token>, input: string, rest: string)
    requires Tokenizes(ts, input, rest) && Unclosed(rest)
    ensures !Tokenizes(us, input, "")
  {
    CutUnambiguous();
    forall t: Token ensures Cut(t, rest).None? { UnclosedStarts(t, rest); }
    Tokenizer.NoWay(Cut, ts, us, input, rest);
  }

  lemma UnclosedStarts(t: Token, rest: string)
    requires Unclosed(rest)
    ensures !Starts(t, rest)
  {
    assert rest[1..][0] == rest[1];
    if Starts(t, rest) {
      StartsLike(t, rest);
      if t.Braced? { OneClosingBrace(t.inner, rest[2..]); }
    }
  }

  lemma BracedAt(rest: string, inner: string, k: nat)
    requires "${" <= rest && Closing(rest[2..]) == Some(k) && k + 2 <= |rest| && inner == rest[2..k + 2]
    ensures Starts(Braced(inner), rest)
  {
    var s := rest[2..];
    assert k < |s| && s[k] == '}' by { ClosingIs(s); }
    assert Closing(inner + "}") == Some(k) by {
      assert inner + "}" == s[..k + 1];
      ClosingAt(s, k);
    }
    BracedText(rest, inner, k + 2);
  }

  lemma BracedText(rest: string, inner: string, end: nat)
    requires 2 <= end < |rest| && "${" <= rest && inner == rest[2..end] && rest[end] == '}'
    ensures Text(Braced(inner)) == rest[..end + 1]
  {
    assert rest[..2] == "${";
    assert rest[..end + 1] == rest[..2] + rest[2..end] + [rest[end]];
  }

  lemma NamedAt(rest: string, end: nat)
    requires 1 < end <= |rest| && rest[0] == '$' && IsVarStart(rest[1])
    requires forall i | 1 <= i < end :: IsVarChar(rest[i])
    requires end < |rest| ==> !IsVarChar(rest[end])
    ensures Starts(Named(rest[1..end]), rest)
  {
    assert Text(Named(rest[1..end])) == rest[..end];
  }

  lemma LoneAt(rest: string)
    requires rest != "" && rest[0] == '$'
    requires |rest| > 1 ==> rest[1] != '$' && rest[1] != '{' && !IsVarStart(rest[1])
    ensures Starts(Lone, rest)
  {
    assert Text(Lone) == rest[..1];
  }

  lemma {:induction false} ClosingAt(s: string, k: nat)
    requires Closing(s) == Some(k) && k < |s|
    ensures Closing(s[..k + 1]) == Some(k)
  {
    if k + 1 == |s| {
      assert s[..k + 1] == s;
    } else {
      var n := |s| - 1;
      assert s[..n][..k + 1] == s[..k + 1];
      ClosingAt(s[..n], k);
    }
  }

  /** The token at index i, unless the brace there is never closed. */
  method NextToken(input: string, i: nat) returns (r: Option<Token>)
    requires i < |input|
    ensures r.Some? ==> Starts(r.value, input[i..])
    ensures r.None? ==> Unclosed(input[i..])
  {
    var rest := input[i..];
    if input[i] != '$' {
      return Some(Plain(input[i]));
    }
    if i + 1 < |input| && input[i + 1] == '$' {
      return Some(Escape);
    }
    if i + 1 < |input| && input[i + 1] == '{' {
      var close := FindClosingBrace(input, i + 2);
      assert rest[2..] == input[i + 2..];
      if close.None? {
        return None;
      }
      var inner := input[i + 2..close.value];
      BracedAt(rest, inner, close.value - i - 2);
      return Some(Braced(inner));
    }
    if i + 1 < |input| && IsVarStart(input[i + 1]) {
      var end := VarNameEnd(input, i + 1);
      var name := input[i + 1..end];
      assert name == rest[1..end - i];
      NamedAt(rest, end - i);
      return Some(Named(name));
    }
    LoneAt(rest);
    r := Some(Lone);
  }

  /** The substituted string, if the input has a tokenization. */
  ghost function Substituted(input: string, vars: Vars): Option<string> {
    if ts :| Tokenizes(ts, input, "") then Some(Values(ts, vars)) else None
  }

  /** `substitute_vars`: the substitution, or the index behind a brace that is never closed. */
  method SubstituteVars(input: string, vars: Vars) returns (r: Result<string, nat>)
    ensures Substituted(input, vars) == if r.Ok? then Some(r.value) else None
    ensures r.Err? ==> 2 <= r.error <= |input| && Unclosed(input[r.error - 2..])
  {
    ghost var ts;
    r, ts := ScanAll(input, vars, Cut, Valuation(vars));
    if r.Ok? {
      SubstitutedIs(ts, input, vars);
    } else {
      NotSubstituted(ts, input, input[r.error - 2..], vars);
    }
  }

  /** Names for `Cut` and `Valuation` that stand for themselves. */
  ghost predicate Reads(cut: Tokenizer.Cutter<Token>, value: Token -> string, vars: Vars) {
    && (forall t: Token, s: string {:trigger Cut(t, s)} :: cut(t, s) == Cut(t, s))
    && (forall t: Token {:trigger TokenValue(t, vars)} :: value(t) == TokenValue(t, vars))
  }

  /** Its loop. */
  method ScanAll(input: string, vars: Vars, ghost cut: Tokenizer.Cutter<Token>, ghost value: Token -> string)
    returns (r: Result<string, nat>, ghost ts: seq<Token>)
    requires Reads(cut, value, vars)
    ensures r.Ok? ==> Tokenizer.Behind(cut, ts, input) == Some("") && r.value == Concat(value, ts)
    ensures r.Err? ==> 2 <= r.error <= |input| && Tokenizer.Behind(cut, ts, input) == Some(input[r.error - 2..])
    ensures r.Err? ==> ClosingOf(input[r.error - 2..]) == None
  {
    var out := "";
    var i := 0;
    ts := [];
    assert input[0..] == input;
    while i < |input|
      invariant i <= |input|
      invariant Tokenizer.Behind(cut, ts, input) == Some(input[i..])
      invariant out == Concat(value, ts)
    {
      var text, end;
      ghost var t;
      text, end, t := Scan(input, i, vars, cut, value);
      if end == i {
        return Err(i + 2), ts;
      }
      Tokenizer.BehindNext(cut, ts, t, input, input[i..]);
      ConcatNext(value, ts, t);
      ts := ts + [t];
      out := out + text;
      i := end;
    }
    assert input[i..] == "";
    r := Ok(out);
  }

  /** One round of it: the text substituted for the token at index i, and where that token ends. */
  method Scan(input: string, i: nat, vars: Vars, ghost cut: Tokenizer.Cutter<Token>, ghost value: Token -> string)
    returns (text: string, end: nat, ghost t: Token)
    requires i < |input| && Reads(cut, value, vars)
    ensures i <= end <= |input|
    ensures i < end ==> cut(t, input[i..]) == Some(input[end..]) && text == value(t)
    ensures i == end ==> i + 2 <= |input| && ClosingOf(input[i..]) == None
  {
    var token := NextToken(input, i);
    if token.None? {
      return "", i, Lone;
    }
    t := token.value;
    end := i + |Text(token.value)|;
    text := TokenValue(token.value, vars);
    assert Cut(t, input[i..]) == Some(input[end..]);
  }

  lemma SubstitutedIs(ts: seq<Token>, input: string, vars: Vars)
    requires Tokenizes(ts, input, "")
    ensures Substituted(input, vars) == Some(Values(ts, vars))
  {
    forall us | Tokenizes(us, input, "") ensures us == ts { OneTokenization(us, ts, input); }
  }

  lemma NotSubstituted(ts: seq<Token>, input: string, rest: string, vars: Vars)
    requires Tokenizes(ts, input, rest) && Unclosed(rest)
    ensures Substituted(input, vars) == None
  {
    forall us ensures !Tokenizes(us, input, "") { UnclosedFails(ts, us, input, rest); }
  }

  // ── Escaping ────────────────────────────────────────────────────────

  /** Every dollar sign doubled. */
  function Doubled(s: string): string {
    if s == "" then "" else Doubled(s[..|s| - 1]) + Text(DoubledToken(s[|s| - 1]))
  }

  function DoubledToken(c: char): Token {
    if c == '$' then Escape else Plain(c)
  }

  function DoubledTokens(s: string): seq<Token> {
    if s == "" then [] else DoubledTokens(s[..|s| - 1]) + [DoubledToken(s[|s| - 1])]
  }

  lemma CutDoubled(c: char, rest: string)
    ensures Cut(DoubledToken(c), Text(DoubledToken(c)) + rest) == Some(rest)
  {
  }

  lemma {:induction false} DoubledCut(cut: Tokenizer.Cutter<Token>, s: string, rest: string)
    requires forall c: char, rest: string :: CutsDoubled(cut, c, rest)
    ensures Tokenizer.Behind(cut, DoubledTokens(s), Doubled(s) + rest) == Some(rest)
    decreases |s|
  {
    if s == "" {
      assert "" + rest == rest;
    } else {
      var init, c := s[..|s| - 1], s[|s| - 1];
      var text := Text(DoubledToken(c));
      DoubledCut(cut, init, text + rest);
      Associates(Doubled(init), text, rest);
      assert CutsDoubled(cut, c, rest);
      Tokenizer.BehindNext(cut, DoubledTokens(init), DoubledToken(c), Doubled(s) + rest, text + rest);
    }
  }

  ghost predicate CutsDoubled(cut: Tokenizer.Cutter<Token>, c: char, rest: string) {
    cut(DoubledToken(c), Text(DoubledToken(c)) + rest) == Some(rest)
  }

  lemma {:induction false} DoubledValues(s: string, vars: Vars)
    ensures Values(DoubledTokens(s), vars) == s
    decreases |s|
  {
    if s != "" {
      DoubledValues(s[..|s| - 1], vars);
      ConcatNext(Valuation(vars), DoubledTokens(s[..|s| - 1]), DoubledToken(s[|s| - 1]));
    }
  }

  /** Substituting a string with every dollar sign doubled gives the string, for all variables. */
  lemma DoubledIsLiteral(s: string, vars: Vars)
    ensures Substituted(Doubled(s), vars) == Some(s)
  {
    forall c: char, rest: string ensures CutsDoubled(Cut, c, rest) { CutDoubled(c, rest); }
    DoubledCut(Cut, s, "");
    assert Doubled(s) + "" == Doubled(s);
    DoubledValues(s, vars);
    SubstitutedIs(DoubledTokens(s), Doubled(s), vars);
  }
}
