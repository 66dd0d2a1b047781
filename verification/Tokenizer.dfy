/** Cutting a text into tokens, whatever the tokens are. */
module Tokenizer {
  import opened Wrappers

  /** What is left of a text behind a token, if the text starts with that token. */
  type Cutter<!T> = (T, string) -> Option<string>

  /** What is left behind several tokens. */
  ghost function Behind<T>(cut: Cutter<T>, ts: seq<T>, input: string): Option<string> {
    if ts == [] then Some(input)
    else
      match Behind(cut, ts[..|ts| - 1], input)
      case None => None
      case Some(rest) => cut(ts[|ts| - 1], rest)
  }

  /** At most one token starts a text, and none starts the empty one. */
  ghost predicate Unambiguous<T(!new)>(cut: Cutter<T>) {
    && (forall t, u, s :: cut(t, s).Some? && cut(u, s).Some? ==> t == u)
    && (forall t :: cut(t, "").None?)
  }

  lemma BehindNext<T>(cut: Cutter<T>, ts: seq<T>, t: T, input: string, rest: string)
    requires Behind(cut, ts, input) == Some(rest)
    ensures Behind(cut, ts + [t], input) == cut(t, rest)
  {
    assert (ts + [t])[..|ts|] == ts;
  }

  lemma {:induction false} BehindPrefix<T>(cut: Cutter<T>, ts: seq<T>, input: string, k: nat)
    requires k <= |ts| && Behind(cut, ts, input).Some?
    ensures Behind(cut, ts[..k], input).Some?
    decreases |ts|
  {
    if k == |ts| {
      assert ts[..k] == ts;
    } else {
      var init := ts[..|ts| - 1];
      assert init[..k] == ts[..k];
      BehindPrefix(cut, init, input, k);
    }
  }

  lemma TokenAt<T>(cut: Cutter<T>, ts: seq<T>, input: string, k: nat) returns (rest: string)
    requires k < |ts| && Behind(cut, ts, input).Some?
    ensures Behind(cut, ts[..k], input) == Some(rest) && cut(ts[k], rest).Some?
  {
    BehindPrefix(cut, ts, input, k + 1);
    BehindPrefix(cut, ts, input, k);
    rest := Behind(cut, ts[..k], input).value;
    BehindNext(cut, ts[..k], ts[k], input, rest);
    assert ts[..k + 1] == ts[..k] + [ts[k]];
  }

  /** Two ways to cut a text agree as far as both go. */
  lemma {:induction false} Agree<T(!new)>(cut: Cutter<T>, ts: seq<T>, us: seq<T>, input: string, k: nat)
    requires Unambiguous(cut) && k <= |ts| && k <= |us|
    requires Behind(cut, ts, input).Some? && Behind(cut, us, input).Some?
    ensures ts[..k] == us[..k]
  {
    if k > 0 {
      Agree(cut, ts, us, input, k - 1);
      var rest := TokenAt(cut, ts, input, k - 1);
      var rest' := TokenAt(cut, us, input, k - 1);
      assert ts[k - 1] == us[k - 1];
    }
  }

  /** Where one way stops, a longer one goes on with a token of what is left. */
  lemma GoesOn<T(!new)>(cut: Cutter<T>, ts: seq<T>, us: seq<T>, input: string, rest: string)
    requires Unambiguous(cut) && Behind(cut, ts, input) == Some(rest) && Behind(cut, us, input).Some? && |ts| < |us|
    ensures cut(us[|ts|], rest).Some?
  {
    Agree(cut, ts, us, input, |ts|);
    assert ts[..|ts|] == ts;
    var rest' := TokenAt(cut, us, input, |ts|);
  }

  /** A text is cut up in at most one way. */
  lemma OneWay<T(!new)>(cut: Cutter<T>, ts: seq<T>, us: seq<T>, input: string)
    requires Unambiguous(cut) && Behind(cut, ts, input) == Some("") && Behind(cut, us, input) == Some("")
    ensures ts == us
  {
    if |ts| < |us| { GoesOn(cut, ts, us, input, ""); }
    if |us| < |ts| { GoesOn(cut, us, ts, input, ""); }
    Agree(cut, ts, us, input, |ts|);
    assert ts[..|ts|] == ts && us[..|us|] == us;
  }

  /** A text of which some tokens leave what no token starts is not cut up at all. */
  lemma NoWay<T(!new)>(cut: Cutter<T>, ts: seq<T>, us: seq<T>, input: string, rest: string)
    requires Unambiguous(cut) && Behind(cut, ts, input) == Some(rest) && rest != ""
    requires forall t :: cut(t, rest).None?
    ensures Behind(cut, us, input) != Some("")
  {
    if Behind(cut, us, input) == Some("") {
      if |ts| < |us| {
        GoesOn(cut, ts, us, input, rest);
      } else if |us| < |ts| {
        GoesOn(cut, us, ts, input, "");
      } else {
        SameLength(cut, ts, us, input);
      }
    }
  }

  lemma SameLength<T(!new)>(cut: Cutter<T>, ts: seq<T>, us: seq<T>, input: string)
    requires Unambiguous(cut) && |ts| == |us| && Behind(cut, ts, input).Some? && Behind(cut, us, input).Some?
    ensures ts == us
  {
    Agree(cut, ts, us, input, |ts|);
    assert ts[..|ts|] == ts && us[..|us|] == us;
  }
}
