/** A symbol table of shadow chains: for every name the newest binding, which links to the one it
    shadows, and a stack of all bindings for leaving scopes.  It behaves as a plain stack. */
module NameMaps {
  import opened Options

  datatype Binding<T> = Binding(name: string, value: T, shadow: Option<Binding<T>>)

  /** A plain stack of bindings, oldest first. */
  type Stack<T> = seq<(string, T)>

  /** The newest value bound to a name. */
  function Newest<T>(s: Stack<T>, name: string): Option<T> {
    if s == [] then None
    else if s[|s| - 1].0 == name then Some(s[|s| - 1].1)
    else Newest(s[..|s| - 1], name)
  }

  /** All values bound to a name, newest first. */
  function All<T>(s: Stack<T>, name: string): seq<T> {
    if s == [] then []
    else if s[|s| - 1].0 == name then [s[|s| - 1].1] + All(s[..|s| - 1], name)
    else All(s[..|s| - 1], name)
  }

  /** The chain of bindings of a name. */
  function Chain<T>(s: Stack<T>, name: string): Option<Binding<T>> {
    if s == [] then None
    else if s[|s| - 1].0 == name then Some(Binding(name, s[|s| - 1].1, Chain(s[..|s| - 1], name)))
    else Chain(s[..|s| - 1], name)
  }

  function Values<T>(chain: Option<Binding<T>>): seq<T> {
    if chain.None? then [] else [chain.value.value] + Values(chain.value.shadow)
  }

  lemma {:induction false} ChainValues<T>(s: Stack<T>, name: string)
    ensures Values(Chain(s, name)) == All(s, name)
    ensures Newest(s, name) == match Chain(s, name) case Some(b) => Some(b.value) case None => None
    decreases |s|
  {
    if s != [] {
      ChainValues(s[..|s| - 1], name);
    }
  }

  /** Bindings of other names do not matter, and those of a name come out newest first. */
  lemma {:induction false} AllOfTwo<T>(s: Stack<T>, t: Stack<T>, name: string)
    ensures All(s + t, name) == All(t, name) + All(s, name)
    decreases |t|
  {
    if t == [] {
      assert s + t == s;
    } else {
      var n := |t| - 1;
      assert (s + t)[|s + t| - 1] == t[n] && (s + t)[..|s + t| - 1] == s + t[..n];
      AllOfTwo(s, t[..n], name);
    }
  }

  class NameMap<T> {
    var data: map<string, Option<Binding<T>>>
    var stack: seq<Binding<T>>

    /** The bindings as a plain stack. */
    ghost function Bindings(): Stack<T>
      reads this
    {
      seq(|stack|, i requires 0 <= i < |stack| reads this => (stack[i].name, stack[i].value))
    }

    function Entry(name: string): Option<Binding<T>>
      reads this
    {
      if name in data then data[name] else None
    }

    /** Every entry is the chain of its name, and every binding shadows what was there before it. */
    ghost predicate Valid()
      reads this
    {
      && (forall name :: Entry(name) == Chain(Bindings(), name))
      && (forall i | 0 <= i < |stack| :: stack[i].shadow == Chain(Bindings()[..i], stack[i].name))
    }

    constructor ()
      ensures Valid() && Bindings() == []
    {
      data, stack := map[], [];
    }

    method Find(name: string) returns (r: Option<T>)
      requires Valid()
      ensures r == Newest(Bindings(), name)
    {
      ChainValues(Bindings(), name);
      var b := Entry(name);
      r := if b.Some? then Some(b.value.value) else None;
    }

    method FindAll(name: string) returns (result: seq<T>)
      requires Valid()
      ensures result == All(Bindings(), name)
    {
      ChainValues(Bindings(), name);
      var binding := Entry(name);
      ghost var chain := binding;
      result := [];
      while binding.Some?
        invariant result + Values(binding) == Values(chain)
        decreases binding
      {
        assert Values(binding) == [binding.value.value] + Values(binding.value.shadow);
        result := result + [binding.value.value];
        binding := binding.value.shadow;
      }
    }

    method Push(name: string, value: T)
      requires Valid()
      modifies this
      ensures Valid() && Bindings() == old(Bindings()) + [(name, value)]
    {
      ghost var s := Bindings();
      var binding := Binding(name, value, Entry(name));
      data := data[name := Some(binding)];
      stack := stack + [binding];
      assert Bindings() == s + [(name, value)];
      assert Bindings()[..|s|] == s;
      forall i | 0 <= i < |stack|
        ensures stack[i].shadow == Chain(Bindings()[..i], stack[i].name)
      {
        assert Bindings()[..i] == s[..i];
      }
    }

    /** Undoes bindings until `offset` are left. */
    method Pop(offset: nat)
      requires Valid() && |stack| >= offset
      modifies this
      ensures Valid() && Bindings() == old(Bindings())[..offset]
    {
      ghost var s := Bindings();
      while |stack| > offset
        invariant Valid() && offset <= |stack| <= |s| && Bindings() == s[..|stack|]
      {
        ghost var t := Bindings();
        var n := |stack| - 1;
        var b := stack[n];
        data := data[b.name := b.shadow];
        stack := stack[..n];
        assert Bindings() == t[..n];
        assert b.shadow == Chain(t[..n], b.name);
        forall name
          ensures Entry(name) == Chain(t[..n], name)
        {
          assert t[n].0 == b.name && Chain(t, name) == (if b.name == name then Some(Binding(name, t[n].1, Chain(t[..n], name))) else Chain(t[..n], name));
        }
        forall i | 0 <= i < |stack|
          ensures stack[i].shadow == Chain(Bindings()[..i], stack[i].name)
        {
          assert Bindings()[..i] == t[..i];
        }
      }
    }

    function Top(): (n: nat)
      reads this
      ensures n == |Bindings()|
    {
      |stack|
    }
  }
}
