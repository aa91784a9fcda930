/** The node identity keys of the dependency graph. Each renderer joins a fixed
    list of artifact coordinates with ':' and writes a null coordinate as an
    empty segment (Guava's `Joiner.on(":").useForNull("")`). */
module NodeRenderers {
  import opened Wrappers
  import opened Graph

  datatype NodeRenderer = ScopedGroupId | VersionlessId | VersionlessIdWithScope

  const Separator: char := ':'

  /** A null coordinate is written as the empty string. */
  function OrEmpty(s: Option<string>): string
  {
    match s
    case None => ""
    case Some(v) => v
  }

  /** The colon joiner: the parts in order, separated by ':'. */
  function Join(parts: seq<Option<string>>): string
  {
    if |parts| == 0 then ""
    else if |parts| == 1 then OrEmpty(parts[0])
    else OrEmpty(parts[0]) + [Separator] + Join(parts[1..])
  }

  /** The coordinates each renderer joins, in order. The version is never one of them. */
  function Fields(renderer: NodeRenderer, a: Artifact): seq<Option<string>>
  {
    match renderer
    case ScopedGroupId => [a.groupId, a.scope]
    case VersionlessId => [a.groupId, a.artifactId, a.artifactType, a.classifier]
    case VersionlessIdWithScope => [a.groupId, a.artifactId, a.artifactType, a.classifier, a.scope]
  }

  /** The key a renderer gives a node. */
  function Render(renderer: NodeRenderer, node: GraphNode): string
  {
    Join(Fields(renderer, node.artifact))
  }

  /** Splits a string at every ':', keeping empty segments. Used only to state
      what a key can be decoded into. */
  function Split(s: string): (r: seq<string>)
    ensures |r| >= 1
  {
    if |s| == 0 then [""]
    else
      var rest := Split(s[1..]);
      if s[0] == Separator then [""] + rest
      else [[s[0]] + rest[0]] + rest[1..]
  }

  /** The rendered segments: every field, null read back as "". */
  function Segments(parts: seq<Option<string>>): (r: seq<string>)
    ensures |r| == |parts|
    ensures forall i :: 0 <= i < |parts| ==> r[i] == OrEmpty(parts[i])
  {
    seq(|parts|, i requires 0 <= i < |parts| => OrEmpty(parts[i]))
  }

  predicate NoSeparator(parts: seq<Option<string>>)
  {
    forall i :: 0 <= i < |parts| ==> Separator !in OrEmpty(parts[i])
  }

  lemma {:induction false} SplitPlain(s: string)
    requires Separator !in s
    ensures Split(s) == [s]
    decreases |s|
  {
    if |s| > 0 {
      SplitPlain(s[1..]);
      assert [s[0]] + s[1..] == s;
    }
  }

  lemma {:induction false} SplitAtSeparator(a: string, b: string)
    requires Separator !in a
    ensures Split(a + [Separator] + b) == [a] + Split(b)
    decreases |a|
  {
    var s := a + [Separator] + b;
    if |a| == 0 {
      assert s[1..] == b;
    } else {
      assert s[1..] == a[1..] + [Separator] + b;
      SplitAtSeparator(a[1..], b);
      assert [a[0]] + a[1..] == a;
    }
  }

  /** Splitting a joined key gives back every part, null read back as "",
      provided no part contains the separator. */
  lemma {:induction false} SplitJoin(parts: seq<Option<string>>)
    requires |parts| >= 1
    requires NoSeparator(parts)
    ensures Split(Join(parts)) == Segments(parts)
    decreases |parts|
  {
    if |parts| == 1 {
      SplitPlain(OrEmpty(parts[0]));
    } else {
      assert NoSeparator(parts[1..]) by {
        forall i | 0 <= i < |parts| - 1 ensures Separator !in OrEmpty(parts[1..][i]) {
          assert parts[1..][i] == parts[i + 1];
        }
      }
      SplitJoin(parts[1..]);
      SplitAtSeparator(OrEmpty(parts[0]), Join(parts[1..]));
    }
  }

  /** Appending a part adds one separator and that part at the end. */
  lemma {:induction false} JoinSnoc(parts: seq<Option<string>>, last: Option<string>)
    requires |parts| >= 1
    ensures Join(parts + [last]) == Join(parts) + [Separator] + OrEmpty(last)
    decreases |parts|
  {
    var ps := parts + [last];
    if |parts| == 1 {
      assert ps[1..] == [last];
    } else {
      assert ps[1..] == parts[1..] + [last];
      JoinSnoc(parts[1..], last);
    }
  }

  /** The joiner sees a part only through its rendering, so null and "" give the same key. */
  lemma {:induction false} JoinDependsOnSegments(p: seq<Option<string>>, q: seq<Option<string>>)
    requires Segments(p) == Segments(q)
    ensures Join(p) == Join(q)
    decreases |p|
  {
    if |p| > 1 {
      assert Segments(p[1..]) == Segments(q[1..]) by {
        forall i | 0 <= i < |p| - 1 ensures Segments(p[1..])[i] == Segments(q[1..])[i] {
          assert Segments(p)[i + 1] == Segments(q)[i + 1];
        }
      }
      JoinDependsOnSegments(p[1..], q[1..]);
      assert Segments(p)[0] == Segments(q)[0];
    } else if |p| == 1 {
      assert Segments(p)[0] == Segments(q)[0];
    }
  }

  /** If no joined coordinate contains ':', splitting a key yields exactly 2, 4
      or 5 segments, which are the coordinates with null read back as "". */
  lemma RenderRoundTrip(renderer: NodeRenderer, node: GraphNode)
    requires NoSeparator(Fields(renderer, node.artifact))
    ensures var a := node.artifact;
      Split(Render(renderer, node)) ==
        match renderer
        case ScopedGroupId => [OrEmpty(a.groupId), OrEmpty(a.scope)]
        case VersionlessId => [OrEmpty(a.groupId), OrEmpty(a.artifactId), OrEmpty(a.artifactType), OrEmpty(a.classifier)]
        case VersionlessIdWithScope => [OrEmpty(a.groupId), OrEmpty(a.artifactId), OrEmpty(a.artifactType), OrEmpty(a.classifier), OrEmpty(a.scope)]
  {
    SplitJoin(Fields(renderer, node.artifact));
  }

  /** The scoped key is the versionless key followed by ':' and the scope. */
  lemma WithScopeExtendsVersionless(node: GraphNode)
    ensures Render(VersionlessIdWithScope, node) ==
            Render(VersionlessId, node) + [Separator] + OrEmpty(node.artifact.scope)
  {
    var a := node.artifact;
    assert Fields(VersionlessIdWithScope, a) == Fields(VersionlessId, a) + [a.scope];
    JoinSnoc(Fields(VersionlessId, a), a.scope);
  }

  /** No renderer reads the version: artifacts that differ only in their
      version get the same key. */
  lemma VersionIndependent(renderer: NodeRenderer, n: GraphNode, m: GraphNode)
    requires n.artifact.(version := m.artifact.version) == m.artifact
    ensures Render(renderer, n) == Render(renderer, m)
  {
  }

  /** A null coordinate is an empty segment, never omitted: every null field
      can be replaced by "" without changing the key. */
  lemma NullIsEmptySegment(renderer: NodeRenderer, node: GraphNode)
    ensures var a := node.artifact;
      var filled := a.(groupId := Some(OrEmpty(a.groupId)), artifactId := Some(OrEmpty(a.artifactId)),
                       scope := Some(OrEmpty(a.scope)), artifactType := Some(OrEmpty(a.artifactType)),
                       classifier := Some(OrEmpty(a.classifier)));
      Render(renderer, node) == Render(renderer, node.(artifact := filled))
  {
    var a := node.artifact;
    var filled := a.(groupId := Some(OrEmpty(a.groupId)), artifactId := Some(OrEmpty(a.artifactId)),
                     scope := Some(OrEmpty(a.scope)), artifactType := Some(OrEmpty(a.artifactType)),
                     classifier := Some(OrEmpty(a.classifier)));
    JoinDependsOnSegments(Fields(renderer, a), Fields(renderer, filled));
  }

  /** Keys are positionally comparable: when no coordinate contains ':', two
      nodes get the same key exactly when the joined coordinates agree
      (null and "" being the same). */
  lemma RenderInjective(renderer: NodeRenderer, n: GraphNode, m: GraphNode)
    requires NoSeparator(Fields(renderer, n.artifact)) && NoSeparator(Fields(renderer, m.artifact))
    ensures Render(renderer, n) == Render(renderer, m) <==>
            Segments(Fields(renderer, n.artifact)) == Segments(Fields(renderer, m.artifact))
  {
    SplitJoin(Fields(renderer, n.artifact));
    SplitJoin(Fields(renderer, m.artifact));
    if Segments(Fields(renderer, n.artifact)) == Segments(Fields(renderer, m.artifact)) {
      JoinDependsOnSegments(Fields(renderer, n.artifact), Fields(renderer, m.artifact));
    }
  }

  /** The scoped versionless key is finer than the versionless key: nodes that
      share the former share the latter. */
  lemma WithScopeRefinesVersionless(n: GraphNode, m: GraphNode)
    requires NoSeparator(Fields(VersionlessIdWithScope, n.artifact))
    requires NoSeparator(Fields(VersionlessIdWithScope, m.artifact))
    requires Render(VersionlessIdWithScope, n) == Render(VersionlessIdWithScope, m)
    ensures Render(VersionlessId, n) == Render(VersionlessId, m)
  {
    RenderInjective(VersionlessIdWithScope, n, m);
    var sn := Segments(Fields(VersionlessIdWithScope, n.artifact));
    var sm := Segments(Fields(VersionlessIdWithScope, m.artifact));
    assert sn[..4] == sm[..4];
    assert Segments(Fields(VersionlessId, n.artifact)) == sn[..4];
    assert Segments(Fields(VersionlessId, m.artifact)) == sm[..4];
    JoinDependsOnSegments(Fields(VersionlessId, n.artifact), Fields(VersionlessId, m.artifact));
  }
}
