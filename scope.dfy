/**
 * Scopes of generated code.  A scope records the variable names in use (each
 * bound to the node that declared it) and a stash of arbitrary context, and
 * points to its enclosing scope.  Lookups search the scope itself, then its
 * ancestors; a nil scope finds nothing.  `PickName` proposes a variable name
 * that no scope in the chain uses.
 */
module Scopes {
  import opened Wrappers
  import opened GoAst

  /** A stash key or value: an `interface{}` of which only equality is used. */
  datatype Datum = Datum(id: nat)

  class Scope {
    var stash: map<Datum, Datum>
    var vars: map<string, Node>
    var parent: Scope?

    /** This scope, its parent, its grandparent and so on to the root. */
    ghost var chain: seq<Scope>

    /** The chain starts here and follows the parent pointers to the root, without cycles. */
    ghost predicate Valid()
      reads this, chain
      decreases |chain|
    {
      && |chain| > 0
      && chain[0] == this
      && (parent == null ==> |chain| == 1)
      && (parent != null ==> |chain| > 1 && chain[1] == parent && parent.chain == chain[1..] && parent.Valid())
    }

    /** A new scope nested in `parent` (nil for a root), with empty tables. */
    constructor New(parent: Scope?)
      requires parent == null || parent.Valid()
      ensures Valid()
      ensures stash == map[] && vars == map[] && this.parent == parent
      ensures chain == [this] + (if parent == null then [] else parent.chain)
    {
      stash := map[];
      vars := map[];
      this.parent := parent;
      chain := [this] + (if parent == null then [] else parent.chain);
    }
  }

  /** A scope with no parent and empty tables. */
  method RootScope() returns (s: Scope)
    ensures fresh(s) && s.Valid()
    ensures s.parent == null && s.stash == map[] && s.vars == map[] && s.chain == [s]
  {
    s := new Scope.New(null);
  }

  /** The scopes a lookup from `s` may visit. */
  ghost function Chain(s: Scope?): seq<Scope>
    reads s
  {
    if s == null then [] else s.chain
  }

  /** Whether frame `i` of the chain is the nearest to bind `name`. */
  ghost predicate NearestVar(s: Scope, name: string, i: int)
    reads s, s.chain
  {
    && 0 <= i < |s.chain|
    && name in s.chain[i].vars
    && forall j | 0 <= j < i :: name !in s.chain[j].vars
  }

  /**
   * The node bound to `name` in the nearest scope of the chain that binds it;
   * found exactly when some scope of the chain binds it.
   */
  function LookupVar(s: Scope?, name: string): (r: Option<Node>)
    requires s == null || s.Valid()
    reads s, if s == null then [] else s.chain
    ensures r.Some? <==> exists i | 0 <= i < |Chain(s)| :: name in Chain(s)[i].vars
    ensures r.Some? ==> exists i :: NearestVar(s, name, i) && r.value == s.chain[i].vars[name]
    decreases |Chain(s)|
  {
    if s == null then None
    else if name in s.vars then
      assert NearestVar(s, name, 0);
      Some(s.vars[name])
    else
      var r := LookupVar(s.parent, name);
      assert forall i | 1 <= i < |s.chain| :: s.chain[i] == Chain(s.parent)[i - 1];
      assert r.Some? ==> exists i :: NearestVar(s, name, i) && r.value == s.chain[i].vars[name] by {
        if r.Some? {
          var i :| NearestVar(s.parent, name, i) && r.value == s.parent.chain[i].vars[name];
          assert NearestVar(s, name, i + 1);
        }
      }
      r
  }

  /** Whether frame `i` of the chain is the nearest to stash `key`. */
  ghost predicate NearestStash(s: Scope, key: Datum, i: int)
    reads s, s.chain
  {
    && 0 <= i < |s.chain|
    && key in s.chain[i].stash
    && forall j | 0 <= j < i :: key !in s.chain[j].stash
  }

  /** The value stashed under `key` in the nearest scope of the chain that stashes it. */
  function LookupStash(s: Scope?, key: Datum): (r: Option<Datum>)
    requires s == null || s.Valid()
    reads s, if s == null then [] else s.chain
    ensures r.Some? <==> exists i | 0 <= i < |Chain(s)| :: key in Chain(s)[i].stash
    ensures r.Some? ==> exists i :: NearestStash(s, key, i) && r.value == s.chain[i].stash[key]
    decreases |Chain(s)|
  {
    if s == null then None
    else if key in s.stash then
      assert NearestStash(s, key, 0);
      Some(s.stash[key])
    else
      var r := LookupStash(s.parent, key);
      assert forall i | 1 <= i < |s.chain| :: s.chain[i] == Chain(s.parent)[i - 1];
      assert r.Some? ==> exists i :: NearestStash(s, key, i) && r.value == s.chain[i].stash[key] by {
        if r.Some? {
          var i :| NearestStash(s.parent, key, i) && r.value == s.parent.chain[i].stash[key];
          assert NearestStash(s, key, i + 1);
        }
      }
      r
  }

  /** A local binding shadows every binding further up the chain. */
  lemma Shadowing(s: Scope, name: string)
    requires s.Valid() && name in s.vars
    ensures LookupVar(s, name) == Some(s.vars[name])
  {
  }

  /** Without a local binding, the lookup is the parent's. */
  lemma Delegation(s: Scope, name: string, key: Datum)
    requires s.Valid()
    ensures name !in s.vars ==> LookupVar(s, name) == LookupVar(s.parent, name)
    ensures key !in s.stash ==> LookupStash(s, key) == LookupStash(s.parent, key)
  {
  }

  /** Every name bound somewhere in the chain. */
  ghost function Visible(s: Scope?): set<string>
    requires s == null || s.Valid()
    reads s, if s == null then [] else s.chain
    decreases |Chain(s)|
  {
    if s == null then {} else s.vars.Keys + Visible(s.parent)
  }

  /** A name is found exactly when it is visible. */
  lemma {:induction false} FoundIffVisible(s: Scope?, name: string)
    requires s == null || s.Valid()
    ensures LookupVar(s, name).Some? <==> name in Visible(s)
    decreases |Chain(s)|
  {
    if s != null && name !in s.vars {
      FoundIffVisible(s.parent, name);
    }
  }

  // Candidate names

  /** The decimal digit `d`. */
  function Digit(d: nat): (c: char)
    requires d < 10
    ensures '0' <= c <= '9'
  {
    (48 + d) as char
  }

  /** strconv.Itoa on a natural number: its decimal digits, without leading zeros. */
  function Itoa(n: nat): (s: string)
    ensures |s| >= 1 && (n >= 10 ==> |s| >= 2)
    ensures forall i | 0 <= i < |s| :: '0' <= s[i] <= '9'
    decreases n
  {
    if n < 10 then [Digit(n)] else Itoa(n / 10) + [Digit(n % 10)]
  }

  /** The number a string of decimal digits denotes. */
  function DecimalValue(s: string): nat
    requires forall i | 0 <= i < |s| :: '0' <= s[i] <= '9'
    decreases |s|
  {
    if s == [] then 0 else DecimalValue(s[..|s| - 1]) * 10 + (s[|s| - 1] as int - '0' as int)
  }

  /** Itoa is the decimal form of `n`: it denotes `n`, with no leading zero unless `n` is zero. */
  lemma {:induction false} ItoaValue(n: nat)
    ensures DecimalValue(Itoa(n)) == n
    ensures n > 0 ==> Itoa(n)[0] != '0'
    decreases n
  {
    var s := Itoa(n);
    if n >= 10 {
      assert s == Itoa(n / 10) + [Digit(n % 10)];
      assert s[..|s| - 1] == Itoa(n / 10);
      ItoaValue(n / 10);
    } else {
      assert s[..|s| - 1] == [];
    }
  }

  /** Different numbers are written differently. */
  lemma {:induction false} ItoaInjective(a: nat, b: nat)
    requires Itoa(a) == Itoa(b)
    ensures a == b
    decreases a
  {
    if a >= 10 && b >= 10 {
      var s, t := Itoa(a), Itoa(b);
      assert s == Itoa(a / 10) + [Digit(a % 10)];
      assert t == Itoa(b / 10) + [Digit(b % 10)];
      assert s[..|s| - 1] == Itoa(a / 10) && t[..|t| - 1] == Itoa(b / 10);
      assert s[|s| - 1] == Digit(a % 10) && t[|t| - 1] == Digit(b % 10);
      ItoaInjective(a / 10, b / 10);
    }
  }

  /** The prefix PickName uses: the one given, or "gogox" for the empty prefix. */
  function Prefix(prefix: string): (p: string)
    ensures p != ""
    ensures prefix != "" ==> p == prefix
  {
    if prefix == "" then "gogox" else prefix
  }

  /** The `k`-th name PickName tries: `p`, then `p2`, `p3`, and so on; never `p1`. */
  function Candidate(p: string, k: nat): string
  {
    if k == 0 then p else p + Itoa(k + 1)
  }

  /** After the `k`-th candidate, PickName tries the prefix followed by `k + 2`. */
  lemma CandidateNext(p: string, k: nat, idx: int)
    requires idx == k + 2
    ensures p + Itoa(idx) == Candidate(p, k + 1)
  {
  }

  /** No name is tried twice. */
  lemma CandidateInjective(p: string, j: nat, k: nat)
    requires Candidate(p, j) == Candidate(p, k)
    ensures j == k
  {
    if j > 0 && k > 0 {
      assert Candidate(p, j)[|p|..] == Itoa(j + 1);
      assert Candidate(p, k)[|p|..] == Itoa(k + 1);
      ItoaInjective(j + 1, k + 1);
    } else {
      assert |Candidate(p, j)| == |Candidate(p, k)|;
    }
  }

  /** The names tried before the `k`-th. */
  ghost function Tried(p: string, k: nat): set<string>
  {
    if k == 0 then {} else Tried(p, k - 1) + {Candidate(p, k - 1)}
  }

  /** The `k`-th candidate is not among the first `m`, for `m <= k`. */
  lemma {:induction false} NotYetTried(p: string, k: nat, m: nat)
    requires m <= k
    ensures Candidate(p, k) !in Tried(p, m)
  {
    if m > 0 {
      NotYetTried(p, k, m - 1);
      if Candidate(p, k) == Candidate(p, m - 1) {
        CandidateInjective(p, k, m - 1);
      }
    }
  }

  /** Every candidate before the `k`-th has been tried. */
  lemma {:induction false} AllTried(p: string, j: nat, k: nat)
    requires j < k
    ensures Candidate(p, j) in Tried(p, k)
  {
    if j < k - 1 {
      AllTried(p, j, k - 1);
    }
  }

  /** Trying one more visible name leaves fewer untried. */
  lemma Shrinks(visible: set<string>, tried: set<string>, name: string)
    requires name in visible && name !in tried
    ensures |visible - (tried + {name})| < |visible - tried|
  {
    assert visible - (tried + {name}) == (visible - tried) - {name};
  }

  /**
   * One turn of PickName's loop: the current candidate is visible, so it joins
   * the tried names, which stay visible, and fewer visible names are left untried.
   */
  lemma TryNext(s: Scope?, p: string, k: nat)
    requires s == null || s.Valid()
    requires LookupVar(s, Candidate(p, k)).Some? && Tried(p, k) <= Visible(s)
    ensures Tried(p, k + 1) <= Visible(s)
    ensures |Visible(s) - Tried(p, k + 1)| < |Visible(s) - Tried(p, k)|
  {
    FoundIffVisible(s, Candidate(p, k));
    NotYetTried(p, k, k);
    Shrinks(Visible(s), Tried(p, k), Candidate(p, k));
  }

  /** When the tried names are all visible, LookupVar finds each of them. */
  lemma TriedFound(s: Scope?, p: string, k: nat)
    requires s == null || s.Valid()
    requires Tried(p, k) <= Visible(s)
    ensures forall j: nat | j < k :: LookupVar(s, Candidate(p, j)).Some?
  {
    forall j: nat | j < k
      ensures LookupVar(s, Candidate(p, j)).Some?
    {
      AllTried(p, j, k);
      FoundIffVisible(s, Candidate(p, j));
    }
  }

  /**
   * The first candidate for `p` that LookupVar does not find: the loop of
   * PickName.  Every earlier candidate is found; nothing in any scope changes.
   */
  method FirstFree(s: Scope?, p: string) returns (name: string, ghost k: nat)
    requires s == null || s.Valid()
    ensures name == Candidate(p, k) && LookupVar(s, name).None?
    ensures Tried(p, k) <= Visible(s)
  {
    name := p;
    var idx := 2;
    k := 0;
    while LookupVar(s, name).Some?
      invariant idx == k + 2 && name == Candidate(p, k)
      invariant Tried(p, k) <= Visible(s)
      decreases |Visible(s) - Tried(p, k)|
    {
      TryNext(s, p, k);
      name := p + Itoa(idx);
      CandidateNext(p, k, idx);
      idx := idx + 1;
      k := k + 1;
    }
  }

  /**
   * The first candidate for `prefix` that LookupVar does not find.  Every
   * earlier candidate is found; nothing in any scope changes.
   */
  method PickName(s: Scope?, prefix: string) returns (name: string)
    requires s == null || s.Valid()
    ensures LookupVar(s, name).None?
    ensures exists k: nat ::
      && name == Candidate(Prefix(prefix), k)
      && (forall j: nat | j < k :: LookupVar(s, Candidate(Prefix(prefix), j)).Some?)
  {
    var p := prefix;
    if p == "" {
      p := "gogox";
    }
    ghost var k;
    name, k := FirstFree(s, p);
    TriedFound(s, p, k);
    assert p == Prefix(prefix) && name == Candidate(p, k);
  }
}
