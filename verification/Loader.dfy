/**
  The plugin loader: a depth-first load of a plugin and its dependencies that
  appends to the list of loaded plugins and strikes failed plugins from the
  list of available ones while it runs.
 */
module PluginLoader {
  import opened Lists

  type Name = string

  /** What the dynamic linker and the plugin factory answer for one file. */
  datatype PluginFile =
    | Unloadable
    | NotInstantiable
    | NotAPlugin
    | Plugin(dependencies: seq<Name>)

  datatype LoadError = NoError | Cyclic | NotAvailable | LoadFailed | NotInstanciated | NotPluginType

  /** The configured aliases and the files of the plugin directory. */
  datatype Environment = Environment(aliases: map<Name, Name>, files: map<Name, PluginFile>) {
    function Resolve(name: Name): Name {
      if name in aliases && aliases[name] != "" then aliases[name] else name
    }

    function File(name: Name): PluginFile {
      if name in files then files[name] else Unloadable
    }

    /** `m` is the resolved name of a dependency that plugin `n` declares. */
    ghost predicate DependsOn(n: Name, m: Name) {
      File(n).Plugin? && exists d :: d in File(n).dependencies && Resolve(d) == m
    }
  }

  /** A name with an alias that is not empty stands for it, once; every other name for itself. */
  lemma ResolvesIff(env: Environment, name: Name, target: Name)
    ensures env.Resolve(name) == target <==>
            (name in env.aliases && env.aliases[name] == target && target != "") ||
            ((name !in env.aliases || env.aliases[name] == "") && name == target)
  {
  }

  // ---------- Which plugins can be loaded at all ----------

  /** `n` and all it depends on bottom out within `k` levels of usable files. */
  ghost predicate Grounded(env: Environment, scan: seq<Name>, n: Name, k: nat)
    decreases k
  {
    && k > 0
    && n in scan
    && env.File(n).Plugin?
    && forall m :: env.DependsOn(n, m) ==> Grounded(env, scan, m, k - 1)
  }

  ghost predicate Loadable(env: Environment, scan: seq<Name>, n: Name) {
    exists k: nat :: Grounded(env, scan, n, k)
  }

  lemma {:induction false} GroundedMonotone(env: Environment, scan: seq<Name>, n: Name, k: nat, l: nat)
    requires k <= l && Grounded(env, scan, n, k)
    ensures Grounded(env, scan, n, l)
    decreases k
  {
    forall m | env.DependsOn(n, m)
      ensures Grounded(env, scan, m, l - 1)
    {
      GroundedMonotone(env, scan, m, k - 1, l - 1);
    }
  }

  /** A bound on the depth of every dependency listed from position `i` on. */
  lemma {:induction false} CommonDepth(env: Environment, scan: seq<Name>, deps: seq<Name>, i: nat) returns (k: nat)
    requires i <= |deps|
    requires forall d :: d in deps ==> Loadable(env, scan, env.Resolve(d))
    ensures forall j :: i <= j < |deps| ==> Grounded(env, scan, env.Resolve(deps[j]), k)
    decreases |deps| - i
  {
    if i == |deps| {
      k := 0;
    } else {
      var rest := CommonDepth(env, scan, deps, i + 1);
      assert deps[i] in deps;
      var own: nat :| Grounded(env, scan, env.Resolve(deps[i]), own);
      k := if own < rest then rest else own;
      forall j | i <= j < |deps|
        ensures Grounded(env, scan, env.Resolve(deps[j]), k)
      {
        GroundedMonotone(env, scan, env.Resolve(deps[j]), if j == i then own else rest, k);
      }
    }
  }

  /** The loadable plugins are a fixpoint: available, usable, and so for every dependency. */
  lemma {:induction false} LoadableIsFixpoint(env: Environment, scan: seq<Name>, n: Name)
    ensures Loadable(env, scan, n) <==>
              (n in scan && env.File(n).Plugin? && forall m :: env.DependsOn(n, m) ==> Loadable(env, scan, m))
  {
    if Loadable(env, scan, n) {
      var k: nat :| Grounded(env, scan, n, k);
      assert forall m :: env.DependsOn(n, m) ==> Grounded(env, scan, m, k - 1);
    }
    if n in scan && env.File(n).Plugin? && forall m :: env.DependsOn(n, m) ==> Loadable(env, scan, m) {
      var deps := env.File(n).dependencies;
      forall d | d in deps
        ensures Loadable(env, scan, env.Resolve(d))
      {
        assert env.DependsOn(n, env.Resolve(d));
      }
      var k := CommonDepth(env, scan, deps, 0);
      assert Grounded(env, scan, n, k + 1);
    }
  }

  /** ... and the least one: every set closed under "all dependencies inside" contains them. */
  lemma {:induction false} LoadableIsLeast(env: Environment, scan: seq<Name>, s: iset<Name>, n: Name, k: nat)
    requires forall p :: p in scan && env.File(p).Plugin? && (forall m :: env.DependsOn(p, m) ==> m in s) ==> p in s
    requires Grounded(env, scan, n, k)
    ensures n in s
    decreases k
  {
    forall m | env.DependsOn(n, m)
      ensures m in s
    {
      LoadableIsLeast(env, scan, s, m, k - 1);
    }
  }

  // ---------- Transitive dependencies and cycles ----------

  ghost predicate NeedsWithin(env: Environment, n: Name, m: Name, k: nat)
    decreases k
  {
    n == m || (k > 0 && exists d :: env.DependsOn(n, d) && NeedsWithin(env, d, m, k - 1))
  }

  /** `m` is `n` or one of its transitive dependencies. */
  ghost predicate Needs(env: Environment, n: Name, m: Name) {
    exists k: nat :: NeedsWithin(env, n, m, k)
  }

  ghost predicate OnCycle(env: Environment, n: Name) {
    exists d :: env.DependsOn(n, d) && Needs(env, d, n)
  }

  lemma NeedsItself(env: Environment, n: Name)
    ensures Needs(env, n, n)
  {
    assert NeedsWithin(env, n, n, 0);
  }

  lemma NeedsStep(env: Environment, n: Name, d: Name, m: Name)
    requires env.DependsOn(n, d) && Needs(env, d, m)
    ensures Needs(env, n, m)
  {
    var k: nat :| NeedsWithin(env, d, m, k);
    assert NeedsWithin(env, n, m, k + 1);
  }

  lemma {:induction false} GroundedNeeds(env: Environment, scan: seq<Name>, n: Name, m: Name, k: nat, l: nat)
    requires Grounded(env, scan, n, k) && NeedsWithin(env, n, m, l)
    ensures exists j: nat :: j <= k && Grounded(env, scan, m, j)
    decreases l
  {
    if n != m {
      var d :| env.DependsOn(n, d) && NeedsWithin(env, d, m, l - 1);
      GroundedNeeds(env, scan, d, m, k - 1, l - 1);
    }
  }

  /** Everything a loadable plugin needs is loadable. */
  lemma LoadableNeeds(env: Environment, scan: seq<Name>, n: Name, m: Name)
    requires Loadable(env, scan, n) && Needs(env, n, m)
    ensures Loadable(env, scan, m)
  {
    var k: nat :| Grounded(env, scan, n, k);
    var l: nat :| NeedsWithin(env, n, m, l);
    GroundedNeeds(env, scan, n, m, k, l);
  }

  lemma {:induction false} CycleNotGrounded(env: Environment, scan: seq<Name>, n: Name, k: nat)
    requires OnCycle(env, n)
    ensures !Grounded(env, scan, n, k)
    decreases k
  {
    if Grounded(env, scan, n, k) {
      var d :| env.DependsOn(n, d) && Needs(env, d, n);
      var l: nat :| NeedsWithin(env, d, n, l);
      GroundedNeeds(env, scan, d, n, k - 1, l);
      var j: nat :| j <= k - 1 && Grounded(env, scan, n, j);
      CycleNotGrounded(env, scan, n, j);
    }
  }

  /** A plugin that needs a plugin on a dependency cycle is never loadable. */
  lemma CyclesAreRejected(env: Environment, scan: seq<Name>, n: Name, m: Name)
    requires Needs(env, n, m) && OnCycle(env, m)
    ensures !Loadable(env, scan, n)
  {
    if Loadable(env, scan, n) {
      LoadableNeeds(env, scan, n, m);
      var k: nat :| Grounded(env, scan, m, k);
      CycleNotGrounded(env, scan, m, k);
    }
  }

  /** The pending stack is a dependency path, innermost plugin first, that ends in `next`. */
  ghost predicate PendingPath(env: Environment, stack: seq<Name>, next: Name) {
    && (stack != [] ==> env.DependsOn(stack[0], next))
    && forall i :: 0 <= i < |stack| - 1 ==> env.DependsOn(stack[i + 1], stack[i])
  }

  lemma {:induction false} PathNeeds(env: Environment, stack: seq<Name>, next: Name, j: nat)
    requires PendingPath(env, stack, next) && j < |stack|
    ensures exists d :: env.DependsOn(stack[j], d) && Needs(env, d, next)
    decreases j
  {
    if j == 0 {
      NeedsItself(env, next);
    } else {
      PathNeeds(env, stack, next, j - 1);
      var d :| env.DependsOn(stack[j - 1], d) && Needs(env, d, next);
      NeedsStep(env, stack[j - 1], d, next);
      assert env.DependsOn(stack[j - 1 + 1], stack[j - 1]);
    }
  }

  // ---------- Lists ----------

  function RemoveOne(s: seq<Name>, x: Name): seq<Name> {
    if s == [] then [] else if s[0] == x then s[1..] else [s[0]] + RemoveOne(s[1..], x)
  }

  /** `s` without the names in `gone`, order and repetitions kept. */
  ghost function Without(s: seq<Name>, gone: set<Name>): (r: seq<Name>)
    ensures forall y :: y in r <==> y in s && y !in gone
  {
    if s == [] then [] else if s[0] in gone then Without(s[1..], gone) else [s[0]] + Without(s[1..], gone)
  }

  lemma {:induction false} WithoutNothing(s: seq<Name>)
    ensures Without(s, {}) == s
  {
    if s != [] {
      WithoutNothing(s[1..]);
      assert s == [s[0]] + s[1..];
    }
  }

  lemma {:induction false} RemoveAllIsWithout(s: seq<Name>, gone: set<Name>, x: Name)
    ensures RemoveAll(Without(s, gone), x) == Without(s, gone + {x})
  {
    if s != [] {
      RemoveAllIsWithout(s[1..], gone, x);
      if s[0] !in gone {
        var r := Without(s[1..], gone);
        assert ([s[0]] + r)[1..] == r;
      }
    }
  }

  // ---------- The loaded list ----------

  ghost predicate Topological(env: Environment, loaded: seq<Name>) {
    && (forall i, j :: 0 <= i < j < |loaded| ==> loaded[i] != loaded[j])
    && forall i, m :: 0 <= i < |loaded| && env.DependsOn(loaded[i], m) ==> m in loaded[..i]
  }

  lemma TopologicalAppend(env: Environment, loaded: seq<Name>, n: Name)
    requires Topological(env, loaded) && n !in loaded
    requires forall m :: env.DependsOn(n, m) ==> m in loaded
    ensures Topological(env, loaded + [n])
  {
    var longer := loaded + [n];
    forall i, m | 0 <= i < |longer| && env.DependsOn(longer[i], m)
      ensures m in longer[..i]
    {
      if i < |loaded| {
        assert m in loaded[..i];
        assert longer[..i] == loaded[..i];
      } else {
        assert longer[..i] == loaded;
      }
    }
  }

  /** A topological list contains everything its members need. */
  lemma {:induction false} LoadedNeeds(env: Environment, loaded: seq<Name>, n: Name, m: Name, k: nat)
    requires Topological(env, loaded) && n in loaded && NeedsWithin(env, n, m, k)
    ensures m in loaded
    decreases k
  {
    if n != m {
      var d :| env.DependsOn(n, d) && NeedsWithin(env, d, m, k - 1);
      var i :| 0 <= i < |loaded| && loaded[i] == n;
      assert d in loaded[..i];
      LoadedNeeds(env, loaded, d, m, k - 1);
    }
  }

  /** The reported error names a real obstacle among the plugins that `n` needs. */
  ghost predicate Explains(env: Environment, available: seq<Name>, n: Name, error: LoadError) {
    exists m :: Needs(env, n, m) && Obstacle(env, available, m, error)
  }

  ghost predicate Obstacle(env: Environment, available: seq<Name>, m: Name, error: LoadError) {
    match error
    case NoError => false
    case Cyclic => OnCycle(env, m)
    case NotAvailable => m !in available
    case LoadFailed => env.File(m).Unloadable?
    case NotInstanciated => env.File(m).NotInstantiable?
    case NotPluginType => env.File(m).NotAPlugin?
  }

  class Loader {
    const env: Environment
    ghost const scan: seq<Name>   // the names found in the plugin directory
    ghost var struck: set<Name>   // the names invalidated so far
    var loaded: seq<Name>
    var available: seq<Name>

    ghost predicate Valid()
      reads this
    {
      && available == Without(scan, struck)
      && Topological(env, loaded)
      && (forall n :: n in struck ==> !Loadable(env, scan, n))
      && (forall n :: n in loaded ==> Loadable(env, scan, n))
    }

    /** What a call leaves behind: only needed plugins are added, only needed ones struck. */
    ghost predicate Grown(n: Name, loadedBefore: seq<Name>, struckBefore: set<Name>)
      reads this
    {
      && loadedBefore <= loaded
      && struckBefore <= struck
      && (forall m :: m in loaded && m !in loadedBefore ==> Needs(env, n, m))
      && (forall m :: m in struck && m !in struckBefore ==> Needs(env, n, m))
    }

    constructor (env: Environment, names: seq<Name>)
      ensures Valid() && this.env == env && scan == names
      ensures available == names && loaded == [] && struck == {}
    {
      this.env := env;
      scan, struck := names, {};
      loaded, available := [], names;
      new;
      WithoutNothing(names);
    }

    method InvalidatePlugin(name: Name)
      requires Valid() && !Loadable(env, scan, name)
      modifies this`available, this`struck
      ensures Valid() && struck == old(struck) + {name}
    {
      RemoveAllIsWithout(scan, struck, name);
      available := RemoveAll(available, name);
      struck := struck + {name};
    }

    /**
      Loads `name` with the plugins in `stack` pending. Returns true exactly
      for loadable plugins; the stack comes back as it was passed in.
     */
    method LoadPluginFile(name: Name, errorString: LoadError, stack: seq<Name>)
      returns (success: bool, error: LoadError, stackOut: seq<Name>)
      requires Valid()
      requires PendingPath(env, stack, env.Resolve(name))
      modifies this`loaded, this`available, this`struck
      ensures Valid() && stackOut == stack
      ensures success <==> Loadable(env, scan, env.Resolve(name))
      ensures Grown(env.Resolve(name), old(loaded), old(struck))
      ensures success ==> env.Resolve(name) in loaded && struck == old(struck) && error == errorString
      ensures !success ==> env.Resolve(name) in struck && Explains(env, available, env.Resolve(name), error)
      ensures env.Resolve(name) in old(loaded) || env.Resolve(name) in old(struck) ==>
                loaded == old(loaded) && struck == old(struck)
      decreases (set n | n in scan) - (set n | n in stack), 0
    {
      var resolved := env.Resolve(name);
      var cyclic := resolved in stack;
      error := errorString;
      stackOut := [resolved] + stack;
      success := false;
      NeedsItself(env, resolved);
      LoadableIsFixpoint(env, scan, resolved);
      if cyclic {
        error := Cyclic;
        var j :| 0 <= j < |stack| && stack[j] == resolved;
        PathNeeds(env, stack, resolved, j);
        CyclesAreRejected(env, scan, resolved, resolved);
        assert Obstacle(env, available, resolved, Cyclic);
      } else if resolved in loaded {
        success := true;
      } else if resolved !in available {
        error := NotAvailable;
      } else if env.File(resolved).Unloadable? {
        error := LoadFailed;
      } else if env.File(resolved).NotInstantiable? {
        error := NotInstanciated;
      } else if env.File(resolved).NotAPlugin? {
        error := NotPluginType;
      } else {
        assert resolved in (set n | n in scan) - (set n | n in stack);
        success, error, stackOut := LoadDependencies(resolved, error, stackOut);
        if success {
          TopologicalAppend(env, loaded, resolved);
          loaded := loaded + [resolved];
        }
      }
      stackOut := RemoveOne(stackOut, resolved);
      if !success {
        assert Explains(env, available, resolved, error) by {
          assert Obstacle(env, available, resolved, error) || Explains(env, available, resolved, error);
        }
        ghost var m :| Needs(env, resolved, m) && Obstacle(env, available, m, error);
        InvalidatePlugin(resolved);
        assert Obstacle(env, available, m, error);
      }
    }

    /** The dependency loop of LoadPluginFile: stops at the first dependency that fails. */
    method LoadDependencies(resolved: Name, errorString: LoadError, stack: seq<Name>)
      returns (success: bool, error: LoadError, stackOut: seq<Name>)
      requires Valid() && env.File(resolved).Plugin?
      requires resolved in scan && resolved !in loaded
      requires stack != [] && stack[0] == resolved
      requires forall m :: env.DependsOn(resolved, m) ==> PendingPath(env, stack, m)
      modifies this`loaded, this`available, this`struck
      ensures Valid() && stackOut == stack
      ensures success <==> Loadable(env, scan, resolved)
      ensures Grown(resolved, old(loaded), old(struck))
      ensures success ==> resolved !in loaded && forall m :: env.DependsOn(resolved, m) ==> m in loaded
      ensures success ==> struck == old(struck) && error == errorString
      ensures !success ==> Explains(env, available, resolved, error)
      decreases (set n | n in scan) - (set n | n in stack), 1
    {
      var dependencies := env.File(resolved).dependencies;
      success, error, stackOut := true, errorString, stack;
      var i := 0;
      while i < |dependencies|
        invariant 0 <= i <= |dependencies|
        invariant Valid() && stackOut == stack && success
        invariant struck == old(struck) && error == errorString
        invariant Grown(resolved, old(loaded), old(struck))
        invariant resolved !in loaded
        invariant forall j :: 0 <= j < i ==> env.Resolve(dependencies[j]) in loaded
      {
        ghost var dep := env.Resolve(dependencies[i]);
        assert env.DependsOn(resolved, dep);
        ghost var loadedBefore := loaded;
        success, error, stackOut := LoadPluginFile(dependencies[i], error, stackOut);
        forall m | Needs(env, dep, m)
          ensures Needs(env, resolved, m)
        {
          NeedsStep(env, resolved, dep, m);
        }
        if !success {
          LoadableIsFixpoint(env, scan, resolved);
          return;
        }
        if resolved in loaded {
          CyclesAreRejected(env, scan, resolved, resolved);
        }
        i := i + 1;
      }
      LoadableIsFixpoint(env, scan, resolved);
    }

    /** Loads a plugin from outside, with nothing pending. */
    method LoadPlugin(name: Name) returns (success: bool, errorString: LoadError)
      requires Valid()
      modifies this`loaded, this`available, this`struck
      ensures Valid()
      ensures success <==> Loadable(env, scan, env.Resolve(name))
      ensures old(loaded) <= loaded && old(struck) <= struck
      ensures success ==> errorString == NoError && available == old(available)
      ensures success ==>
                forall m :: m in loaded <==> m in old(loaded) || Needs(env, env.Resolve(name), m)
      ensures !success ==> env.Resolve(name) !in available
      ensures !success ==> Explains(env, available, env.Resolve(name), errorString)
      ensures env.Resolve(name) in old(loaded) || env.Resolve(name) in old(struck) ==>
                loaded == old(loaded) && available == old(available)
    {
      var stack;
      success, errorString, stack := LoadPluginFile(name, NoError, []);
      if success {
        forall m | Needs(env, env.Resolve(name), m)
          ensures m in loaded
        {
          var k: nat :| NeedsWithin(env, env.Resolve(name), m, k);
          LoadedNeeds(env, loaded, env.Resolve(name), m, k);
        }
      }
    }
  }
}
