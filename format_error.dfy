/**
 * The flattening of class-validator's error tree into the list of messages
 * that the validation pipe sends back (`formatErrorsHelper`,
 * src/utils/error/format-error.util.ts).
 */
module FormatError {
  import opened Wrappers

  /**
   * A class-validator `ValidationError`: the property it is about, its
   * `constraints` record (absent, or the record's values in key order) and
   * its nested errors (an absent `children` array is the empty sequence).
   */
  datatype VErr = VErr(property: string, constraints: Option<seq<string>>, children: seq<VErr>)

  /**
   * One element of the flattened list: a message string, or the empty
   * object `{}` that a node with neither constraints nor children yields.
   */
  datatype Msg = Str(text: string) | EmptyRecord

  /** How a template literal renders an element: the empty object prints as "[object Object]". */
  function Render(m: Msg): string {
    match m
    case Str(s) => s
    case EmptyRecord => "[object Object]"
  }

  /** The text put in front of a child's message, naming the parent property. */
  function Prefix(property: string): string {
    "Invalid nested attribute " + property + ". "
  }

  /** A child's message as its parent reports it. */
  function Nested(property: string, m: Msg): Msg {
    Str(Prefix(property) + Render(m))
  }

  /** `Object.values(constraints)` as elements of the result. */
  function Strs(msgs: seq<string>): seq<Msg> {
    seq(|msgs|, i requires 0 <= i < |msgs| => Str(msgs[i]))
  }

  /** `formatErrorsHelper`: each node's contribution, in input order. */
  function Format(errors: seq<VErr>): seq<Msg>
    decreases errors
  {
    if errors == [] then []
    else Contribution(errors[0]) + Format(errors[1..])
  }

  /**
   * What one node contributes: its constraint messages when the record is
   * present (children ignored), else its children's messages each prefixed
   * with the property, else the empty object.
   */
  function Contribution(e: VErr): seq<Msg>
    decreases e
  {
    match e.constraints
    case Some(msgs) => Strs(msgs)
    case None =>
      if |e.children| > 0 then
        var inner := Format(e.children);
        seq(|inner|, i requires 0 <= i < |inner| => Nested(e.property, inner[i]))
      else
        [EmptyRecord]
  }

  /** The prefixes of a path of properties, outermost first. */
  function Prefixes(path: seq<string>): string {
    if path == [] then "" else Prefix(path[0]) + Prefixes(path[1..])
  }

  /**
   * A node reached through a chain of constraint-less parents, one per
   * property of `path`, outermost first; each parent has the next as its only child.
   */
  function Chain(path: seq<string>, leaf: VErr): VErr {
    if path == [] then leaf else VErr(path[0], None, [Chain(path[1..], leaf)])
  }

  /** The flattening distributes over concatenation of the input list. */
  lemma {:induction false} FormatAppend(a: seq<VErr>, b: seq<VErr>)
    ensures Format(a + b) == Format(a) + Format(b)
  {
    if a == [] {
      assert a + b == b;
    } else {
      assert (a + b)[0] == a[0];
      assert (a + b)[1..] == a[1..] + b;
      FormatAppend(a[1..], b);
    }
  }

  /** The concatenation of a list of message lists, first to last. */
  function Flatten(parts: seq<seq<Msg>>): seq<Msg> {
    if parts == [] then [] else parts[0] + Flatten(parts[1..])
  }

  /** Each node's contribution, listed in input order. */
  function Contributions(errors: seq<VErr>): seq<seq<Msg>> {
    seq(|errors|, i requires 0 <= i < |errors| => Contribution(errors[i]))
  }

  /**
   * The output is the contributions of the nodes, concatenated in input
   * order; no input, no output.
   */
  lemma {:induction false} FormatIsConcatenation(errors: seq<VErr>)
    ensures Format(errors) == Flatten(Contributions(errors))
  {
    if errors != [] {
      FormatIsConcatenation(errors[1..]);
      assert Contributions(errors)[0] == Contribution(errors[0]);
      assert Contributions(errors)[1..] == Contributions(errors[1..]);
    }
  }

  /** A node with a constraints record reports exactly its messages, in order, whatever its children. */
  lemma ConstraintsReported(e: VErr, rest: seq<VErr>)
    requires e.constraints.Some?
    ensures |Format([e] + rest)| == |e.constraints.value| + |Format(rest)|
    ensures forall i :: 0 <= i < |e.constraints.value| ==> Format([e] + rest)[i] == Str(e.constraints.value[i])
    ensures Format([e] + rest)[|e.constraints.value|..] == Format(rest)
  {
    assert ([e] + rest)[0] == e && ([e] + rest)[1..] == rest;
  }

  /** A present but empty constraints record contributes nothing, even when the node has children. */
  lemma EmptyConstraintsSilent(property: string, children: seq<VErr>, rest: seq<VErr>)
    ensures Format([VErr(property, Some([]), children)] + rest) == Format(rest)
  {
    var e := VErr(property, Some([]), children);
    assert ([e] + rest)[0] == e && ([e] + rest)[1..] == rest;
  }

  /**
   * A node without constraints but with children reports one message per
   * message of its children, in order, each prefixed with its property.
   */
  lemma NestedReported(property: string, children: seq<VErr>)
    requires |children| > 0
    ensures |Format([VErr(property, None, children)])| == |Format(children)|
    ensures forall i :: 0 <= i < |Format(children)| ==>
      Format([VErr(property, None, children)])[i] == Str(Prefix(property) + Render(Format(children)[i]))
  {
    var e := VErr(property, None, children);
    assert [e][1..] == [];
  }

  /** A node with neither constraints nor children contributes one empty object. */
  lemma BareNodeIsEmptyRecord(property: string, rest: seq<VErr>)
    ensures Format([VErr(property, None, [])] + rest) == [EmptyRecord] + Format(rest)
  {
    var e := VErr(property, None, []);
    assert ([e] + rest)[0] == e && ([e] + rest)[1..] == rest;
  }

  /**
   * A constraint message at nesting depth |path| carries one prefix per
   * enclosing property, outermost first.
   */
  lemma {:induction false} ChainPrefixes(path: seq<string>, leaf: VErr)
    requires leaf.constraints.Some?
    ensures |Format([Chain(path, leaf)])| == |leaf.constraints.value|
    ensures forall i :: 0 <= i < |leaf.constraints.value| ==>
      Format([Chain(path, leaf)])[i] == Str(Prefixes(path) + leaf.constraints.value[i])
  {
    var msgs := leaf.constraints.value;
    if path == [] {
      assert [leaf][1..] == [];
      assert Format([leaf]) == Strs(msgs);
      forall i | 0 <= i < |msgs|
        ensures Format([leaf])[i] == Str(Prefixes(path) + msgs[i])
      {
        assert Prefixes(path) + msgs[i] == msgs[i];
      }
    } else {
      var inner := Chain(path[1..], leaf);
      ChainPrefixes(path[1..], leaf);
      var e := Chain(path, leaf);
      assert e == VErr(path[0], None, [inner]);
      assert [e][1..] == [];
      assert Format([e]) == Contribution(e);
      forall i | 0 <= i < |msgs|
        ensures Format([e])[i] == Str(Prefixes(path) + msgs[i])
      {
        assert Render(Format([inner])[i]) == Prefixes(path[1..]) + msgs[i];
        assert Prefix(path[0]) + (Prefixes(path[1..]) + msgs[i]) == Prefixes(path) + msgs[i];
      }
    }
  }
}
