/** Loading and resolving together: what a configuration holds once its providers have been
    merged and the placeholders of the merged tree resolved.
 */
module LoadedConfig {
  import opened Collections
  import opened Text
  import opened Resolver
  import opened StringLevel
  import opened Substitution
  import opened Resolution
  import opened TextResolver
  import opened TextRefinement
  import opened TreeResolver
  import Load = ConfigLoad
  import Tree = ConfigTree

  /** `after` is what resolving the tree `before` ends with, in some order of its leaves. */
  ghost predicate ResolvedTo(t: TextRun, before: Node, after: Node)
    requires Mixing(t) && before.Obj? && Tree.GoodTree(before)
  {
    && after.Obj? && Tree.GoodTree(after)
    && exists order :: Distinct(order) && SetOf(order) == Tree.Flat(before).Keys
                       && VisitTexts(t, Tree.Flat(before), order) == TextOutcome(Tree.Flat(after), TextOk(Tree.Null))
  }

  /** Resolving the tree stops with an error, in some order of its leaves. */
  ghost predicate Unresolved(t: TextRun, before: Node)
    requires Mixing(t) && before.Obj? && Tree.GoodTree(before)
  {
    exists order :: Distinct(order) && SetOf(order) <= Tree.Flat(before).Keys
                    && !VisitTexts(t, Tree.Flat(before), order).res.TextOk?
  }

  /** Trees are resolved as `TreeConfig.Resolve` does it. */
  ghost predicate ResolvesTrees(t: TextRun, resolve: Node -> Option<Node>) {
    && Mixing(t)
    && forall q: Node | q.Obj? && Tree.GoodTree(q) && Ready(t, q, Tree.Flat(q)) ::
         if resolve(q).Some? then ResolvedTo(t, q, resolve(q).value) else Unresolved(t, q)
  }

  /** A tree that depicts a configuration without cycles, ambiguous strings, or references to
      leaves that collapse. */
  ghost predicate Tractable(t: TextRun, q: Node, r: Run, style: Style, st: Store, g: Graph) {
    && q.Obj? && Tree.GoodTree(q) && Ready(t, q, Tree.Flat(q)) && Depicts(r, style, t, q, st)
    && Loadable(r, st) && r.norm == g.norm && Ranked(st, g) && WellFormed(st, g) && Clean(st, g, PureValues(st, g))
  }

  lemma ResolvedIsPure(t: TextRun, resolve: Node -> Option<Node>, q: Node, r: Run, style: Style, st: Store, g: Graph)
    requires ResolvesTrees(t, resolve) && Tractable(t, q, r, style, st, g)
    ensures resolve(q).Some? <==> forall k | k in st :: Pure(st, g, k).Some?
    ensures resolve(q).Some? ==>
              var q' := resolve(q).value; q'.Obj? && Tree.GoodTree(q') && ShowsStore(Finals(st, g), Tree.Flat(q'))
  {
    var ls := Tree.Flat(q);
    if resolve(q).Some? {
      var q' := resolve(q).value;
      assert ResolvedTo(t, q, q');
      var order :| Distinct(order) && SetOf(order) == ls.Keys
                   && VisitTexts(t, ls, order) == TextOutcome(Tree.Flat(q'), TextOk(Tree.Null));
      CleanlyFollows(r, style, t, st, ls, g, order);
    } else {
      assert Unresolved(t, q);
      var order :| Distinct(order) && SetOf(order) <= ls.Keys && !VisitTexts(t, ls, order).res.TextOk?;
      CleanlyFollows(r, style, t, st, ls, g, order);
    }
  }

  /** A load ends with the pure substitution of the merged properties, and succeeds exactly if
      the rounds do and no leaf runs into a malformed string. */
  method LoadResolved<P(==, !new)>(c: Load.Config<P, Node>, src: Load.Source<P, Node>, force: bool, ghost t: TextRun,
                                   ghost r: Run, ghost style: Style, ghost st: Store, ghost g: Graph)
    returns (ok: bool)
    requires Load.Known(Load.EnvOf(src, c.groups)) && ResolvesTrees(t, src.resolve)
    requires var l := Load.LoadAll(Load.EnvOf(src, c.groups), if force then c.loaded - src.universe else c.loaded);
             l.Done? ==> Tractable(t, l.props, r, style, st, g)
    modifies c
    ensures var l := Load.LoadAll(Load.EnvOf(src, old(c.groups)), if force then old(c.loaded) - src.universe else old(c.loaded));
            && (ok <==> l.Done? && forall k | k in st :: Pure(st, g, k).Some?)
            && (ok ==> src.merge(l.used) == Some(l.props) && Depicts(r, style, t, l.props, st))
    ensures ok ==> c.props.Obj? && Tree.GoodTree(c.props) && ShowsStore(Finals(st, g), Tree.Flat(c.props))
  {
    ghost var before := if force then c.loaded - src.universe else c.loaded;
    ghost var env := Load.EnvOf(src, c.groups);
    ghost var l := Load.LoadAll(env, before);
    Load.LoadSettles(env, before);
    if l.Done? {
      ResolvedIsPure(t, src.resolve, l.props, r, style, st, g);
    }
    ok := c.Load(src, force);
  }
}
