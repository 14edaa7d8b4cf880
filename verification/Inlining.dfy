/** Message types refer to one another by name and may form a cycle. The
    generator inlines the schema of every message field
    (buf/jsonschema.go:461-480 and 1451-1458) and has no cycle check, so it
    works on the unfolding of the graph into a tree, which leaves ignored fields
    as they are. This module says when that unfolding exists and that it does not
    depend on where a type is used. */
module Inlining {
  import opened Json
  import opened JsonSchema
  import opened Descriptors
  import opened Generator
  import opened Chains

  /** A field of a message type: `target` names the message type of its element,
      list items or map values, if they are messages. */
  datatype Link = Link(template: Field, target: Option<string>)

  type TypeGraph = map<string, seq<Link>>

  /** The message type that generation enters at a field: an ignored field is
      skipped before its schema is generated (buf/jsonschema.go:303-305). */
  function Into(l: Link): Option<string> {
    if l.template.visibility == Omit then None else l.target
  }

  predicate Closed(g: TypeGraph) {
    forall n, i | n in g && 0 <= i < |g[n]| && Into(g[n][i]).Some? :: Into(g[n][i]).value in g
  }

  function WithElem(f: Field, e: Elem): Field {
    match f.shape
    case Singular(_, presence) => f.(shape := Singular(e, presence))
    case Repeated(_, rules, low, high) => f.(shape := Repeated(e, rules, low, high))
    case MapOf(k, keyRules, _, valueRules, presence) =>
      f.(shape := MapOf(k, keyRules, e, valueRules, presence))
  }

  /** The descriptor tree of type `n`, if it is at most `depth` types deep. */
  function Unfold(g: TypeGraph, n: string, depth: nat): Option<Message>
    requires Closed(g) && n in g
    decreases depth, 1, 0
  {
    if depth == 0 then None
    else match UnfoldFields(g, n, |g[n]|, depth - 1)
      case None => None
      case Some(fields) => Some(Message(fields))
  }

  /** The first `count` fields of type `n`. */
  function UnfoldFields(g: TypeGraph, n: string, count: nat, depth: nat): (r: Option<seq<Field>>)
    requires Closed(g) && n in g && count <= |g[n]|
    ensures r.Some? ==> |r.value| == count
    decreases depth, 2, count
  {
    if count == 0 then Some([])
    else match UnfoldFields(g, n, count - 1, depth)
      case None => None
      case Some(fields) =>
        var link := g[n][count - 1];
        match Into(link)
        case None => Some(fields + [link.template])
        case Some(t) =>
          match Unfold(g, t, depth)
          case None => None
          case Some(m) => Some(fields + [WithElem(link.template, MessageElem(m))])
  }

  /** The message types that generation of each type enters. */
  function References(g: TypeGraph): Graph {
    map n | n in g :: set i | 0 <= i < |g[n]| && Into(g[n][i]).Some? :: Into(g[n][i]).value
  }

  // ----- Unfolding against chains of references

  lemma {:induction false} FieldsUnfold(g: TypeGraph, n: string, count: nat, depth: nat)
    requires Closed(g) && n in g && count <= |g[n]|
    ensures UnfoldFields(g, n, count, depth).Some? <==>
            forall i | 0 <= i < count && Into(g[n][i]).Some? :: Unfold(g, Into(g[n][i]).value, depth).Some?
    ensures UnfoldFields(g, n, count, depth).Some? ==>
            forall i | 0 <= i < count && Into(g[n][i]).Some? ::
              UnfoldFields(g, n, count, depth).value[i] ==
              WithElem(g[n][i].template, MessageElem(Unfold(g, Into(g[n][i]).value, depth).value))
  {
    if count > 0 {
      FieldsUnfold(g, n, count - 1, depth);
    }
  }

  /** The shape is the other with this element in place of its own. */
  predicate SameButElem(shape: Shape, other: Shape, e: Elem) {
    match other
    case Singular(_, presence) => shape == Singular(e, presence)
    case Repeated(_, rules, low, high) => shape == Repeated(e, rules, low, high)
    case MapOf(k, keyRules, _, valueRules, presence) => shape == MapOf(k, keyRules, e, valueRules, presence)
  }

  /** The fields of an unfolded type are those of its description, one by one; where
      generation enters a message type, its unfolding is the element. */
  lemma UnfoldsFields(g: TypeGraph, n: string, depth: nat, i: nat)
    requires Closed(g) && n in g && Unfold(g, n, depth).Some? && i < |g[n]|
    ensures |Unfold(g, n, depth).value.fields| == |g[n]|
    ensures var f, link := Unfold(g, n, depth).value.fields[i], g[n][i];
            if link.template.visibility == Omit || link.target == None then f == link.template
            else
              var inner := Unfold(g, link.target.value, depth - 1);
              && inner.Some?
              && f == link.template.(shape := f.shape)
              && SameButElem(f.shape, link.template.shape, MessageElem(inner.value))
  {
    FieldsUnfold(g, n, |g[n]|, depth - 1);
    if Into(g[n][i]) == None {
      TemplatesKept(g, n, |g[n]|, depth - 1, i);
    }
  }

  lemma {:induction false} TemplatesKept(g: TypeGraph, n: string, count: nat, depth: nat, i: nat)
    requires Closed(g) && n in g && count <= |g[n]| && UnfoldFields(g, n, count, depth).Some?
    requires i < count && Into(g[n][i]) == None
    ensures UnfoldFields(g, n, count, depth).value[i] == g[n][i].template
  {
    if i < count - 1 {
      TemplatesKept(g, n, count - 1, depth, i);
    }
  }

  lemma {:induction false} MoreDepth(g: TypeGraph, n: string, depth: nat, deeper: nat)
    requires Closed(g) && n in g && depth <= deeper && Unfold(g, n, depth).Some?
    ensures Unfold(g, n, deeper) == Unfold(g, n, depth)
    decreases depth, 1, 0
  {
    MoreDepthFields(g, n, |g[n]|, depth - 1, deeper - 1);
  }

  lemma {:induction false} MoreDepthFields(g: TypeGraph, n: string, count: nat, depth: nat, deeper: nat)
    requires Closed(g) && n in g && count <= |g[n]| && depth <= deeper && UnfoldFields(g, n, count, depth).Some?
    ensures UnfoldFields(g, n, count, deeper) == UnfoldFields(g, n, count, depth)
    decreases depth, 2, count
  {
    if count > 0 {
      MoreDepthFields(g, n, count - 1, depth, deeper);
      if Into(g[n][count - 1]).Some? {
        MoreDepth(g, Into(g[n][count - 1]).value, depth, deeper);
      }
    }
  }

  /** A type that does not fit in `depth` starts a chain of that many references. */
  lemma {:induction false} LongPath(g: TypeGraph, n: string, depth: nat) returns (p: seq<string>)
    requires Closed(g) && n in g && Unfold(g, n, depth) == None
    ensures Chain(References(g), p) && p[0] == n && |p| == depth + 1
    decreases depth
  {
    if depth == 0 {
      return [n];
    }
    FieldsUnfold(g, n, |g[n]|, depth - 1);
    var i :| 0 <= i < |g[n]| && Into(g[n][i]).Some? && Unfold(g, Into(g[n][i]).value, depth - 1) == None;
    var rest := LongPath(g, Into(g[n][i]).value, depth - 1);
    assert Edge(References(g), n, rest[0]);
    p := [n] + rest;
  }

  /** Along a chain, the types get shallower. */
  lemma {:induction false} DescendsPath(g: TypeGraph, p: seq<string>, i: nat, depth: nat)
    requires Closed(g) && Chain(References(g), p) && i < |p| && Unfold(g, p[0], depth).Some?
    ensures i < depth && Unfold(g, p[i], depth - i).Some?
  {
    if i > 0 {
      DescendsPath(g, p, i - 1, depth);
      var a := p[i - 1];
      assert Edge(References(g), p[i - 1], p[i - 1 + 1]);
      FieldsUnfold(g, a, |g[a]|, depth - i);
    }
  }

  /** The least depth at which a type unfolds. */
  lemma {:induction false} LeastDepth(g: TypeGraph, n: string, depth: nat) returns (least: nat)
    requires Closed(g) && n in g && Unfold(g, n, depth).Some?
    ensures Unfold(g, n, least).Some?
    ensures least > 0 && Unfold(g, n, least - 1) == None
  {
    if Unfold(g, n, depth - 1) == None {
      least := depth;
    } else {
      least := LeastDepth(g, n, depth - 1);
    }
  }

  /** Generation of a type ends, within as many levels as there are types, if and
      only if no chain of references from it, outside ignored fields, visits a
      type twice. */
  lemma TerminatesIffAcyclic(g: TypeGraph, n: string)
    requires Closed(g) && n in g
    ensures Unfold(g, n, |g|).Some? <==> !ReachesCycle(References(g), n)
    ensures (exists depth :: Unfold(g, n, depth).Some?) <==> !ReachesCycle(References(g), n)
  {
    if ReachesCycle(References(g), n) {
      var p :| Chain(References(g), p) && p[0] == n && Repeats(p);
      forall depth
        ensures Unfold(g, n, depth) == None
      {
        if Unfold(g, n, depth).Some? {
          CycleNeverEnds(g, p, depth);
        }
      }
    } else if Unfold(g, n, |g|) == None {
      var p := LongPath(g, n, |g|);
      DistinctFits(p, g.Keys);
    }
  }

  lemma CycleNeverEnds(g: TypeGraph, p: seq<string>, depth: nat)
    requires Closed(g) && Chain(References(g), p) && Repeats(p)
    ensures Unfold(g, p[0], depth) == None
  {
    if Unfold(g, p[0], depth).Some? {
      var i, j :| 0 <= i < j < |p| && p[i] == p[j];
      DescendsPath(g, p, i, depth);
      var least := LeastDepth(g, p[i], depth - i);
      var cycle := p[i..j + 1];
      assert Chain(References(g), cycle) by {
        forall k | 0 <= k < |cycle| - 1
          ensures Edge(References(g), cycle[k], cycle[k + 1])
        {
          assert Edge(References(g), p[i + k], p[i + k + 1]);
        }
      }
      DescendsPath(g, cycle, j - i, least);
      MoreDepth(g, p[i], least - (j - i), least - 1);
    }
  }

  /** The schema inlined at a field is the schema of its type alone: for a
      singular field it is the field's schema, for a list that of the items, for a
      map that of the values, whatever message the field is in. */
  lemma InlinedAlone(o: Options, g: TypeGraph, n: string, i: nat, depth: nat, alone: nat)
    requires Closed(g) && n in g && i < |g[n]| && Into(g[n][i]).Some?
    requires Unfold(g, n, depth).Some? && Unfold(g, Into(g[n][i]).value, alone).Some?
    ensures |Unfold(g, n, depth).value.fields| == |g[n]|
    ensures var f := Unfold(g, n, depth).value.fields[i];
            var schema := MessageSchema(o, Unfold(g, Into(g[n][i]).value, alone).value);
            match f.shape
            case Singular(_, _) => FieldSchema(o, f) == schema
            case Repeated(_, _, _, _) => FieldSchema(o, f).arrays.items == Some(schema)
            case MapOf(_, _, _, _, _) => FieldSchema(o, f).objects.additionalProperties == Each(schema)
  {
    FieldsUnfold(g, n, |g[n]|, depth - 1);
    var t := Into(g[n][i]).value;
    var deep := if alone < depth - 1 then depth - 1 else alone;
    MoreDepth(g, t, alone, deep);
    MoreDepth(g, t, depth - 1, deep);
  }

  /** An ignored field leaves no trace in the schema of its message, whatever its
      type, so it does not matter that it is not unfolded. */
  lemma {:induction false} IgnoredFieldUnseen(o: Options, fields: seq<Field>, i: nat, other: Field)
    requires i < |fields| && fields[i].visibility == Omit && other.visibility == Omit
    ensures MessageSchema(o, Message(fields[i := other])) == MessageSchema(o, Message(fields))
    decreases fields
  {
    var n := |fields| - 1;
    if i < n {
      IgnoredFieldUnseen(o, fields[..n], i, other);
      assert fields[i := other][..n] == fields[..n][i := other];
    } else {
      assert fields[i := other][..n] == fields[..n];
    }
  }
}
