/**
 * Command parameters: each parameter has a supplier of allowed entries, an optional permission
 * and a link to the parameter that follows it, so parameters form singly linked chains.
 */
module Parameters {
  import opened Wrappers
  import opened Errors
  import opened Text

  /**
   * What a parameter accepts: the entries its supplier currently yields (absent when the supplier
   * function is unset) and its usage text.
   */
  datatype ParameterSupplier = ParameterSupplier(allowedEntries: Option<seq<string>>, usage: string)

  /** The supplier used for a parameter without one: no entries and an empty usage. */
  const NONE: ParameterSupplier := ParameterSupplier(Some([]), "")

  /** The allowed entries; none when the supplier function is unset. */
  function GetAllowedEntries(s: ParameterSupplier): (r: seq<string>)
    ensures s.allowedEntries.None? ==> r == []
    ensures s.allowedEntries.Some? ==> r == s.allowedEntries.value
  {
    if s.allowedEntries.None? then [] else s.allowedEntries.value
  }

  /** Whether some entry equals the input ignoring case. */
  function AnyEqualsIgnoreCase(entries: seq<string>, input: string): (r: bool)
    ensures r <==> exists i :: 0 <= i < |entries| && EqualsIgnoreCase(entries[i], input)
  {
    if entries == [] then false
    else
      assert forall i :: 1 <= i < |entries| ==> entries[i] == entries[1..][i - 1];
      EqualsIgnoreCase(entries[0], input) || AnyEqualsIgnoreCase(entries[1..], input)
  }

  /**
   * `matches`: whether an allowed entry equals the input ignoring case; an unset supplier function
   * is dereferenced and fails.
   */
  function Matches(s: ParameterSupplier, input: string): (r: Result<bool, Error>)
    ensures s.allowedEntries.None? ==> r == Failure(NullReference)
    ensures s.allowedEntries.Some? ==>
              r == Success(exists i :: 0 <= i < |s.allowedEntries.value| && EqualsIgnoreCase(s.allowedEntries.value[i], input))
  {
    if s.allowedEntries.None? then Failure(NullReference)
    else Success(AnyEqualsIgnoreCase(s.allowedEntries.value, input))
  }

  /** Inputs that differ only in case match alike. */
  lemma MatchesIgnoresCase(s: ParameterSupplier, a: string, b: string)
    requires EqualsIgnoreCase(a, b)
    ensures Matches(s, a) == Matches(s, b)
  {
    EqualsIgnoreCaseIffSameUpper(a, b);
    if s.allowedEntries.Some? {
      var es := s.allowedEntries.value;
      forall i | 0 <= i < |es| ensures EqualsIgnoreCase(es[i], a) <==> EqualsIgnoreCase(es[i], b) {
        EqualsIgnoreCaseIffSameUpper(es[i], a);
        EqualsIgnoreCaseIffSameUpper(es[i], b);
      }
    }
  }

  /** A sender may use a parameter when it has no permission or the sender holds it. */
  predicate Permitted(permission: Option<string>, perms: set<string>)
  {
    permission.None? || permission.value in perms
  }

  /** A permission that is set and held by the sender. */
  predicate Held(permission: Option<string>, perms: set<string>)
  {
    permission.Some? && permission.value in perms
  }

  class Parameter {
    const supplier: Option<ParameterSupplier>
    const permission: Option<string>
    var next: Parameter?

    /** A parameter on its own: not linked to any other. */
    constructor (supplier: Option<ParameterSupplier>, permission: Option<string>)
      ensures this.supplier == supplier && this.permission == permission && next == null
    {
      this.supplier := supplier;
      this.permission := permission;
      next := null;
    }

    /** The supplier, or NONE when it is unset. */
    function GetSupplier(): (r: ParameterSupplier)
      ensures supplier.None? ==> r == NONE
      ensures supplier.Some? ==> r == supplier.value
    {
      if supplier.None? then NONE else supplier.value
    }

    /**
     * `nextAllowedInputs`: the entries the sender may type after the given tokens. A permission
     * the sender lacks gives none; with no tokens left, the supplier's entries; a first token the
     * supplier matches moves on to the next parameter with the remaining tokens (none if there is
     * no next parameter); any other first token gives none. `path` is the chain from here on.
     */
    function NextAllowedInputs(perms: set<string>, toParse: seq<string>, ghost path: seq<Parameter>): (r: Result<seq<string>, Error>)
      requires IsChain(path) && path[0] == this
      reads path
      decreases |path|
    {
      if !Permitted(permission, perms) then Success([])
      else if supplier.None? then Failure(NullReference)
      else if toParse == [] then Success(GetAllowedEntries(supplier.value))
      else
        var m := Matches(supplier.value, toParse[0]);
        if m.Failure? then Failure(m.error)
        else if !m.value || next == null then Success([])
        else
          assert IsChain(path[1..]) by {
            assert forall i :: 0 <= i < |path| - 2 ==> path[1..][i] == path[i + 1];
          }
          next.NextAllowedInputs(perms, toParse[1..], path[1..])
    }

    /**
     * `getFullUsage`: nothing when the sender lacks this parameter's permission; otherwise this
     * usage followed by the usages of the next parameters, for as long as the next one has a
     * permission and the sender holds it.
     */
    method GetFullUsage(perms: set<string>, ghost path: seq<Parameter>) returns (r: Option<string>)
      requires IsChain(path) && path[0] == this
      ensures !Permitted(permission, perms) ==> r == None
      ensures Permitted(permission, perms) ==> r == Some(Usages(path, Extent(path, perms, 1)))
    {
      if !Permitted(permission, perms) {
        return None;
      }
      var cur := this;
      var usage := cur.GetSupplier().usage;
      ghost var i := 1;
      while cur.next != null && Held(cur.next.permission, perms)
        invariant 1 <= i <= |path| && cur == path[i - 1]
        invariant Extent(path, perms, i) == Extent(path, perms, 1)
        invariant usage == Usages(path, i)
        decreases |path| - i
      {
        cur := cur.next;
        usage := usage + " " + cur.GetSupplier().usage;
        i := i + 1;
      }
      return Some(usage);
    }
  }

  /** `path` lists a chain: each parameter's next is the one after it, and the last has none. */
  ghost predicate IsChain(path: seq<Parameter>)
    reads path
  {
    && |path| > 0
    && (forall i :: 0 <= i < |path| - 1 ==> path[i].next == path[i + 1])
    && path[|path| - 1].next == null
  }

  /** Each parameter's next is the one after it (the last one's next is not constrained). */
  ghost predicate Linked(path: seq<Parameter>)
    reads path
  {
    forall i :: 0 <= i < |path| - 1 ==> path[i].next == path[i + 1]
  }

  /** The last parameter of a chain. */
  function Last(path: seq<Parameter>): Parameter
    requires |path| > 0
  {
    path[|path| - 1]
  }

  /**
   * How far the full usage extends: from position `i` on, the first position whose parameter has
   * no permission or one the sender lacks (the length of the chain if there is none).
   */
  function Extent(path: seq<Parameter>, perms: set<string>, i: nat): (n: nat)
    requires 1 <= i <= |path|
    ensures i <= n <= |path|
    ensures forall j :: i <= j < n ==> Held(path[j].permission, perms)
    ensures n < |path| ==> !Held(path[n].permission, perms)
    decreases |path| - i
  {
    if i < |path| && Held(path[i].permission, perms) then Extent(path, perms, i + 1) else i
  }

  /** The usages of the first `n` parameters, separated by single spaces. */
  function Usages(path: seq<Parameter>, n: nat): (u: string)
    requires 1 <= n <= |path|
  {
    if n == 1 then path[0].GetSupplier().usage
    else Usages(path, n - 1) + " " + path[n - 1].GetSupplier().usage
  }

  /** A next parameter without a permission ends the full usage after the first parameter. */
  lemma FullUsageStopsAtUnrestricted(path: seq<Parameter>, perms: set<string>)
    requires |path| > 1 && path[1].permission.None?
    ensures Usages(path, Extent(path, perms, 1)) == path[0].GetSupplier().usage
  {
  }

  /**
   * Walking a chain: the tokens lead to the parameter at position `|toParse|` when that
   * parameter exists, every parameter up to it is permitted, and every token was matched by
   * its parameter.
   */
  ghost predicate Reaches(path: seq<Parameter>, perms: set<string>, toParse: seq<string>)
  {
    && |toParse| < |path|
    && (forall j :: 0 <= j <= |toParse| ==> Permitted(path[j].permission, perms))
    && (forall j :: 0 <= j < |toParse| ==>
          path[j].supplier.Some? && Matches(path[j].supplier.value, toParse[j]) == Success(true))
  }

  /**
   * The suggestions are the entries of the parameter the tokens lead to; whenever there is any
   * suggestion at all, the tokens did lead to a parameter.
   */
  lemma {:induction false} NextAllowedWalk(path: seq<Parameter>, perms: set<string>, toParse: seq<string>)
    requires IsChain(path)
    ensures var r := path[0].NextAllowedInputs(perms, toParse, path);
            && (Reaches(path, perms, toParse) && path[|toParse|].supplier.Some? ==>
                  r == Success(GetAllowedEntries(path[|toParse|].supplier.value)))
            && (r.Success? && r.value != [] ==> Reaches(path, perms, toParse))
    decreases |toParse|
  {
    var p := path[0];
    if Permitted(p.permission, perms) && p.supplier.Some? && toParse != [] {
      var m := Matches(p.supplier.value, toParse[0]);
      assert |path| > 1 ==> p.next == path[1];
      if m == Success(true) && p.next != null {
        var rest := path[1..];
        assert IsChain(rest) by {
          assert forall i :: 0 <= i < |path| - 2 ==> rest[i] == path[i + 1];
        }
        NextAllowedWalk(rest, perms, toParse[1..]);
        assert p.NextAllowedInputs(perms, toParse, path) == rest[0].NextAllowedInputs(perms, toParse[1..], rest);
        assert forall j :: 1 <= j < |path| ==> path[j] == rest[j - 1];
        assert forall j :: 1 <= j < |toParse| ==> toParse[j] == toParse[1..][j - 1];
        if Reaches(path, perms, toParse) {
          assert Reaches(rest, perms, toParse[1..]);
          assert path[|toParse|] == rest[|toParse[1..]|];
        }
      }
    }
  }

  /** The parameters of several chains, one chain after the other. */
  function Flatten(paths: seq<seq<Parameter>>): (r: seq<Parameter>)
  {
    if paths == [] then [] else Flatten(paths[..|paths| - 1]) + paths[|paths| - 1]
  }

  /** Chains linked each to the next, tail to head, form one list. */
  lemma {:induction false} FlattenLinked(paths: seq<seq<Parameter>>)
    requires |paths| > 0 && forall k :: 0 <= k < |paths| ==> |paths[k]| > 0
    requires forall k :: 0 <= k < |paths| ==> Linked(paths[k])
    requires forall k :: 0 <= k < |paths| - 1 ==> Last(paths[k]).next == paths[k + 1][0]
    ensures |Flatten(paths)| > 0 && Linked(Flatten(paths))
    ensures Flatten(paths)[0] == paths[0][0] && Last(Flatten(paths)) == Last(paths[|paths| - 1])
    decreases |paths|
  {
    var n := |paths|;
    var pre := paths[..n - 1];
    var p := paths[n - 1];
    if n == 1 {
      assert Flatten(paths) == Flatten([]) + p;
    } else {
      FlattenLinked(pre);
      var f := Flatten(pre);
      assert Flatten(paths) == f + p;
      assert Last(f) == Last(paths[n - 2]);
      var g := f + p;
      forall i | 0 <= i < |g| - 1 ensures g[i].next == g[i + 1] {
        if i < |f| - 1 {
          assert g[i] == f[i] && g[i + 1] == f[i + 1];
        } else if i == |f| - 1 {
          assert g[i] == Last(f) && g[i + 1] == p[0];
        } else {
          assert g[i] == p[i - |f|] && g[i + 1] == p[i - |f| + 1];
        }
      }
    }
  }

  /** Finds the last parameter of a chain by following the links. */
  method Tail(p: Parameter, ghost path: seq<Parameter>) returns (t: Parameter)
    requires IsChain(path) && path[0] == p
    ensures t == Last(path)
  {
    t := p;
    ghost var j := 0;
    while t.next != null
      invariant 0 <= j < |path| && t == path[j]
      invariant j < |path| - 1 ==> t.next == path[j + 1]
      decreases |path| - j
    {
      t := t.next;
      j := j + 1;
    }
  }

  /** Chains with distinct last parameters: no parameter inside one chain is the last of any. */
  lemma InteriorNotTail(paths: seq<seq<Parameter>>)
    requires forall k :: 0 <= k < |paths| ==> |paths[k]| > 0 && IsChain(paths[k])
    ensures forall k, j, m :: 0 <= k < |paths| && 0 <= j < |paths[k]| - 1 && 0 <= m < |paths| ==>
              paths[k][j] != Last(paths[m])
  {
    forall k, j, m | 0 <= k < |paths| && 0 <= j < |paths[k]| - 1 && 0 <= m < |paths|
      ensures paths[k][j] != Last(paths[m])
    {
      assert paths[k][j].next == paths[k][j + 1];
    }
  }

  /**
   * One step of `chain`: walks from `head`, the head of chain `i`, to its last parameter and links
   * that to `next`, the head of chain `i + 1`. Every other link stays as it was.
   */
  method LinkTail(head: Parameter, next: Parameter, ghost paths: seq<seq<Parameter>>, ghost i: nat)
    requires i < |paths| - 1 && forall k :: 0 <= k < |paths| ==> |paths[k]| > 0
    requires head == paths[i][0] && next == paths[i + 1][0]
    requires forall k, m :: 0 <= k < m < |paths| ==> Last(paths[k]) != Last(paths[m])
    requires forall k, j, m :: 0 <= k < |paths| && 0 <= j < |paths[k]| - 1 && 0 <= m < |paths| ==>
               paths[k][j] != Last(paths[m])
    requires forall k :: 0 <= k < |paths| ==> Linked(paths[k])
    requires forall k :: 0 <= k < i ==> Last(paths[k]).next == paths[k + 1][0]
    requires forall k :: i <= k < |paths| ==> Last(paths[k]).next == null
    modifies Last(paths[i])
    ensures forall k :: 0 <= k < |paths| ==> Linked(paths[k])
    ensures forall k :: 0 <= k <= i ==> Last(paths[k]).next == paths[k + 1][0]
    ensures forall k :: i < k < |paths| ==> Last(paths[k]).next == null
  {
    assert IsChain(paths[i]);
    var cur := Tail(head, paths[i]);
    cur.next := next;
    forall k | 0 <= k < |paths| ensures Linked(paths[k]) {
      forall j | 0 <= j < |paths[k]| - 1 ensures paths[k][j].next == paths[k][j + 1] {
        assert paths[k][j] != cur;
      }
    }
    forall k | 0 <= k < |paths| && k != i ensures Last(paths[k]).next == old(Last(paths[k]).next) {
      if k < i { assert Last(paths[k]) != cur; } else { assert Last(paths[i]) != Last(paths[k]); }
    }
  }

  /**
   * `chain`: links the last parameter of each argument's chain to the next argument, in order,
   * and answers the first argument, which now heads all the chains one after another. The chains
   * (`paths`, one per argument) must not share parameters, or the links would close a cycle and
   * the walk to a chain's end would never stop.
   */
  method Chain(first: Parameter, others: seq<Parameter>, ghost paths: seq<seq<Parameter>>) returns (head: Parameter)
    requires |paths| == |others| + 1 && forall k :: 0 <= k < |paths| ==> |paths[k]| > 0
    requires forall k :: 0 <= k < |paths| ==> IsChain(paths[k])
    requires paths[0][0] == first && forall k :: 0 <= k < |others| ==> paths[k + 1][0] == others[k]
    requires forall k, m :: 0 <= k < m < |paths| ==> Last(paths[k]) != Last(paths[m])
    modifies set k | 0 <= k < |paths| :: Last(paths[k])
    ensures head == first
    ensures IsChain(Flatten(paths)) && Flatten(paths)[0] == head
  {
    var parameters := [first] + others;
    assert forall k :: 0 <= k < |paths| ==> parameters[k] == paths[k][0];
    InteriorNotTail(paths);
    var i := 0;
    while i < |parameters| - 1
      invariant 0 <= i <= |parameters| - 1
      invariant forall k :: 0 <= k < |paths| ==> Linked(paths[k])
      invariant forall k :: 0 <= k < i ==> Last(paths[k]).next == paths[k + 1][0]
      invariant forall k :: i <= k < |paths| ==> Last(paths[k]).next == null
    {
      LinkTail(parameters[i], parameters[i + 1], paths, i);
      i := i + 1;
    }
    FlattenLinked(paths);
    return parameters[0];
  }
}
