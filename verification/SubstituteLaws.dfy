/** What substitution gives, on the texts themselves. */
module SubstituteLaws {
  import opened Wrappers
  import opened Strings
  import opened Substitute
  import Tokenizer

  // ── One token after the other ───────────────────────────────────────

  /** The value of a first token, in front of whatever the rest gives. */
  ghost function Before(value: string, rest: Option<string>): Option<string> {
    if rest.None? then None else Some(value + rest.value)
  }

  lemma {:induction false} BehindCons<T>(cut: Tokenizer.Cutter<T>, t: T, ts: seq<T>, input: string, rest: string)
    requires cut(t, input) == Some(rest)
    ensures Tokenizer.Behind(cut, [t] + ts, input) == Tokenizer.Behind(cut, ts, rest)
    decreases |ts|
  {
    if ts == [] {
      assert [t] + ts == [t] && [t][..0] == [];
    } else {
      var init, all := ts[..|ts| - 1], [t] + ts;
      assert all[..|all| - 1] == [t] + init;
      BehindCons(cut, t, init, input, rest);
    }
  }

  lemma {:induction false} ConcatCons<T>(f: T -> string, t: T, ts: seq<T>)
    ensures Concat(f, [t] + ts) == f(t) + Concat(f, ts)
    decreases |ts|
  {
    if ts == [] {
      assert [t] + ts == [t] && [t][..0] == [] && "" + f(t) == f(t) + "";
    } else {
      var init, all := ts[..|ts| - 1], [t] + ts;
      assert all[..|all| - 1] == [t] + init;
      ConcatCons(f, t, init);
      Associates(f(t), Concat(f, init), f(ts[|ts| - 1]));
    }
  }

  /** A text that cannot be cut up gives nothing. */
  lemma NoneIs(input: string, vars: Vars)
    requires forall ts :: !Tokenizes(ts, input, "")
    ensures Substituted(input, vars) == None
  {
  }

  /** A text that starts with a token is that token's value, and then what the rest gives. */
  lemma FirstToken(t: Token, input: string, rest: string, vars: Vars)
    requires Cut(t, input) == Some(rest)
    ensures Substituted(input, vars) == Before(TokenValue(t, vars), Substituted(rest, vars))
  {
    if ts :| Tokenizes(ts, rest, "") {
      BehindCons(Cut, t, ts, input, rest);
      ConcatCons(Valuation(vars), t, ts);
      SubstitutedIs(ts, rest, vars);
      SubstitutedIs([t] + ts, input, vars);
    } else {
      forall us ensures !Tokenizes(us, input, "") { NoRest(t, us, input, rest); }
      NoneIs(input, vars);
      NoneIs(rest, vars);
    }
  }

  lemma NoRest(t: Token, us: seq<Token>, input: string, rest: string)
    requires Cut(t, input) == Some(rest) && forall ts :: !Tokenizes(ts, rest, "")
    ensures !Tokenizes(us, input, "")
  {
    if Tokenizes(us, input, "") {
      if us == [] {
        NothingStarts(t);
      } else {
        var r := Tokenizer.TokenAt(Cut, us, input, 0);
        assert us[..0] == [];
        OneToken(t, us[0], input);
        BehindCons(Cut, t, us[1..], input, rest);
        assert us == [us[0]] + us[1..];
        assert Tokenizes(us[1..], rest, "");
      }
    }
  }

  // ── Balanced braces ─────────────────────────────────────────────────

  /** Every brace that is opened is closed, and none besides. */
  ghost predicate Balanced(s: string) {
    Depth(s) == 1 && Closing(s) == None
  }

  ghost predicate NoBraces(s: string) {
    '{' !in s && '}' !in s
  }

  lemma {:induction false} DepthAppend(a: string, b: string)
    ensures Depth(a + b) == Depth(a) + Depth(b) - 1
    decreases |b|
  {
    if b == "" {
      assert a + b == a;
    } else {
      var init := b[..|b| - 1];
      assert (a + b)[..|a + b| - 1] == a + init;
      DepthAppend(a, init);
    }
  }

  lemma {:induction false} NeverCloses(s: string)
    requires forall k | 0 <= k <= |s| :: Depth(s[..k]) > 0
    ensures Closing(s) == None
  {
    if s != "" {
      var init := s[..|s| - 1];
      assert s[..|s|] == s;
      forall k | 0 <= k <= |init| ensures Depth(init[..k]) > 0 { assert init[..k] == s[..k]; }
      NeverCloses(init);
    }
  }

  lemma BalancedAppend(a: string, b: string)
    requires Balanced(a) && Balanced(b)
    ensures Balanced(a + b)
  {
    DepthAppend(a, b);
    ClosingIs(a);
    ClosingIs(b);
    forall k | 0 <= k <= |a + b| ensures Depth((a + b)[..k]) > 0 {
      if k <= |a| {
        assert (a + b)[..k] == a[..k];
      } else {
        assert (a + b)[..k] == a + b[..k - |a|];
        DepthAppend(a, b[..k - |a|]);
      }
    }
    NeverCloses(a + b);
  }

  lemma {:induction false} PlainBalanced(s: string)
    requires NoBraces(s)
    ensures Balanced(s)
    decreases |s|
  {
    if s != "" { PlainBalanced(s[..|s| - 1]); }
  }

  lemma BracedCut(inner: string, rest: string)
    requires Balanced(inner)
    ensures Cut(Braced(inner), "${" + inner + "}" + rest) == Some(rest)
  {
    assert (inner + "}")[..|inner|] == inner;
    var text := "${" + inner + "}";
    assert Text(Braced(inner)) == text && text <= text + rest && (text + rest)[|text|..] == rest;
  }

  lemma BracedFirst(inner: string, rest: string, vars: Vars)
    requires Balanced(inner)
    ensures Substituted("${" + inner + "}" + rest, vars) == Before(ExpandBraced(inner, vars), Substituted(rest, vars))
  {
    BracedCut(inner, rest);
    FirstToken(Braced(inner), "${" + inner + "}" + rest, rest, vars);
  }

  // ── The forms ───────────────────────────────────────────────────────

  /** A name as it is written in braces. */
  ghost predicate PlainName(name: string) {
    NoBraces(name) && ':' !in name
  }

  ghost predicate IsSet(vars: Vars, name: string) {
    name in vars && vars[name] != ""
  }

  lemma Operator(name: string, op: string, word: string)
    requires PlainName(name) && |op| == 2 && NoBraces(op) && Balanced(word)
    ensures Balanced(name + op + word)
  {
    PlainBalanced(name);
    PlainBalanced(op);
    BalancedAppend(name, op);
    BalancedAppend(name + op, word);
  }

  lemma OccursIs(s: string, op: string, j: nat)
    requires |op| == 2
    ensures OccursAt(s, op, j) <==> j + 2 <= |s| && s[j] == op[0] && s[j + 1] == op[1]
  {
    if j + 2 <= |s| {
      assert s[j..j + 2] == [s[j], s[j + 1]];
      assert op == [op[0], op[1]];
    }
  }

  lemma FirstOperator(name: string, op: string, word: string)
    requires ':' !in name && |op| == 2 && op[0] == ':'
    ensures Find(name + op + word, op) == Some(|name|)
    ensures (name + op + word)[..|name|] == name && (name + op + word)[|name| + 2..] == word
  {
    var s := name + op + word;
    assert s[|name|..|name| + 2] == op;
    forall j | 0 <= j < |name| ensures !OccursAt(s, op, j) {
      assert s[j] == name[j];
      OccursIs(s, op, j);
    }
    FindIs(s, op, |name|);
  }

  /** `${name:-word}`: the variable if it is set and not empty, else the word. */
  lemma DefaultForm(name: string, word: string, rest: string, vars: Vars)
    requires PlainName(name) && Balanced(word)
    ensures Substituted("${" + (name + ":-" + word) + "}" + rest, vars) ==
            Before(if IsSet(vars, name) then vars[name] else word, Substituted(rest, vars))
  {
    Operator(name, ":-", word);
    FirstOperator(name, ":-", word);
    BracedFirst(name + ":-" + word, rest, vars);
  }

  lemma NoDefault(name: string, word: string)
    requires ':' !in name && !Contains(word, ":-")
    ensures Find(name + ":+" + word, ":-") == None
  {
    var s := name + ":+" + word;
    forall j | 0 <= j <= |s| ensures !OccursAt(s, ":-", j) {
      OccursIs(s, ":-", j);
      if |name| + 2 <= j {
        OccursIs(word, ":-", j - |name| - 2);
      } else if j < |name| {
        assert s[j] == name[j];
      }
    }
    FindContains(s, ":-");
  }

  /** `${name:+word}`: the word if the variable is set and not empty, else nothing. */
  lemma AlternativeForm(name: string, word: string, rest: string, vars: Vars)
    requires PlainName(name) && Balanced(word) && !Contains(word, ":-")
    ensures Substituted("${" + (name + ":+" + word) + "}" + rest, vars) ==
            Before(if IsSet(vars, name) then word else "", Substituted(rest, vars))
  {
    Operator(name, ":+", word);
    FirstOperator(name, ":+", word);
    NoDefault(name, word);
    BracedFirst(name + ":+" + word, rest, vars);
  }

  /** With both operators it is the `:-` that counts, wherever it stands: all before it is taken for
      the name. */
  lemma BothOperators(name: string, word: string, default: string, rest: string, vars: Vars)
    requires PlainName(name) && NoBraces(word) && ':' !in word && Balanced(default)
    ensures var all := name + ":+" + word;
            Substituted("${" + (all + ":-" + default) + "}" + rest, vars) ==
            Before(if IsSet(vars, all) then vars[all] else default, Substituted(rest, vars))
  {
    var all := name + ":+" + word;
    var inner := all + ":-" + default;
    PlainBalanced(all);
    PlainBalanced(":-");
    BalancedAppend(all, ":-");
    BalancedAppend(all + ":-", default);
    assert inner[|all|..|all| + 2] == ":-" && inner[..|all|] == all && inner[|all| + 2..] == default;
    forall j | 0 <= j < |all| ensures !OccursAt(inner, ":-", j) {
      assert inner[j] == all[j];
      OccursIs(inner, ":-", j);
    }
    FindIs(inner, ":-", |all|);
    BracedFirst(inner, rest, vars);
  }

  /** `${name}`: the variable, or nothing if there is none. */
  lemma BracedForm(name: string, rest: string, vars: Vars)
    requires PlainName(name)
    ensures Substituted("${" + name + "}" + rest, vars) ==
            Before(if name in vars then vars[name] else "", Substituted(rest, vars))
  {
    PlainBalanced(name);
    NoColon(name, ":-");
    NoColon(name, ":+");
    BracedFirst(name, rest, vars);
  }

  lemma NoColon(name: string, op: string)
    requires ':' !in name && |op| == 2 && op[0] == ':'
    ensures Find(name, op) == None
  {
    forall j | 0 <= j <= |name| ensures !OccursAt(name, op, j) {
      OccursIs(name, op, j);
    }
    FindContains(name, op);
  }

  // ── Without braces ──────────────────────────────────────────────────

  const UPPER := "ABCDEFGHIJKLMNOPQRSTUVWXYZ"
  const LOWER := "abcdefghijklmnopqrstuvwxyz"
  const DIGITS := "0123456789"

  predicate IsLetter(c: char) {
    c in UPPER || c in LOWER || c == '_'
  }

  lemma OneOfRange(range: string, c: char)
    requires range != "" && forall i | 0 <= i < |range| :: range[i] as int == range[0] as int + i
    ensures c in range <==> range[0] <= c <= range[|range| - 1]
  {
    if range[0] <= c <= range[|range| - 1] { assert range[c as int - range[0] as int] == c; }
  }

  /** The characters of a name, one by one. */
  lemma NameCharacters(c: char)
    ensures IsVarStart(c) <==> IsLetter(c)
    ensures IsVarChar(c) <==> IsLetter(c) || c in DIGITS
  {
    OneOfRange(UPPER, c);
    OneOfRange(LOWER, c);
    OneOfRange(DIGITS, c);
  }

  /** `$name` takes the longest name there is: the variable, or nothing if there is none. */
  lemma NamedForm(name: string, rest: string, vars: Vars)
    requires name != "" && IsVarStart(name[0]) && forall i | 0 <= i < |name| :: IsVarChar(name[i])
    requires rest != "" ==> !IsVarChar(rest[0])
    ensures Substituted("$" + name + rest, vars) ==
            Before(if name in vars then vars[name] else "", Substituted(rest, vars))
  {
    var input := "$" + name + rest;
    assert input[..1 + |name|] == "$" + name && input[1 + |name|..] == rest;
    assert Cut(Named(name), input) == Some(rest);
    FirstToken(Named(name), input, rest, vars);
  }

  /** `$$` is a dollar sign. */
  lemma EscapedForm(rest: string, vars: Vars)
    ensures Substituted("$$" + rest, vars) == Before("$", Substituted(rest, vars))
  {
    var input := "$$" + rest;
    assert input[2..] == rest;
    FirstToken(Escape, input, rest, vars);
  }

  /** So is one in front of anything that starts none of the other forms. */
  lemma LoneForm(rest: string, vars: Vars)
    requires rest != "" ==> rest[0] != '$' && rest[0] != '{' && !IsVarStart(rest[0])
    ensures Substituted("$" + rest, vars) == Before("$", Substituted(rest, vars))
  {
    var input := "$" + rest;
    assert input[1..] == rest;
    FirstToken(Lone, input, rest, vars);
  }

  /** Everything else is itself. */
  lemma PlainForm(c: char, rest: string, vars: Vars)
    requires c != '$'
    ensures Substituted([c] + rest, vars) == Before([c], Substituted(rest, vars))
  {
    var input := [c] + rest;
    assert input[1..] == rest;
    FirstToken(Plain(c), input, rest, vars);
  }

  /** And nothing gives nothing. */
  lemma EmptyForm(vars: Vars)
    ensures Substituted("", vars) == Some("")
  {
    SubstitutedIs([], "", vars);
  }
}
