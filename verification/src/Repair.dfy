/** What the views show after a step that does not keep every overlay valid: no more than one list is partial then. */
module Repair {
  import opened Options
  import opened Forest
  import opened Overlay
  import opened Sight
  import opened HeadFile
  import opened Views
  import opened MapSteps
  import opened Expansion

  lemma InsertAllPartial(s: Store, t: Store, c: Chains, root: Ref, shown0: map<View, Overlay>,
                         shown: map<View, Overlay>, sent: seq<Notice>, n: Ref, nb: Branch, q: Ref, pos: int, at: int,
                         asker: Option<View>)
    requires Trees(s, c) && AllValid(s, root, shown0) && IsNew(s, n, nb) && q in s && n !in c && EndsAt(c[q], root)
    requires t == Grown(s, c, n, nb, q, pos)
    requires Followed(shown0, InsertPlan(s, c, shown0, n, nb.id, q, pos, at, asker), shown, sent, shown0.Keys)
    ensures AllPartial(t, root, shown, asker, q)
  {
    GrownTrees(s, c, n, nb, q, pos);
    GrownRewired(s, t, n, nb, q, pos);
    forall v | v in shown
      ensures PartialOnly(t, root, shown[v], q) && (asker != Some(v) ==> ValidOverlay(t, root, shown[v]))
    {
      assert FollowedAt(shown0, InsertPlan(s, c, shown0, n, nb.id, q, pos, at, asker), shown, sent, shown0.Keys, v);
      assert ValidOverlay(s, root, shown0[v]);
      InsertSeenPartial(s, t, c, root, shown0[v], n, nb, q, at, asker == Some(v));
      InsertSeenValid(s, t, c, root, shown0[v], n, nb, q, at, asker == Some(v));
    }
  }

  lemma MoveAllPartial(s: Store, t: Store, c: Chains, root: Ref, shown0: map<View, Overlay>, shown: map<View, Overlay>,
                       sent: seq<Notice>, b: Ref, q: Ref, pos: int, asker: Option<View>)
    requires Trees(s, c) && CanMove(s, c, root, b, q) && AllValid(s, root, shown0) && t == Moved(s, c, b, q, pos)
    requires Followed(shown0, MovePlan(s, c, shown0, b, q, pos, asker), shown, sent, shown0.Keys)
    ensures AllPartial(t, root, shown, asker, q)
  {
    MovedTrees(s, c, root, b, q, pos);
    MovedRewired(s, c, root, b, q, pos);
    forall v | v in shown
      ensures PartialOnly(t, root, shown[v], q) && (asker != Some(v) ==> ValidOverlay(t, root, shown[v]))
    {
      assert FollowedAt(shown0, MovePlan(s, c, shown0, b, q, pos, asker), shown, sent, shown0.Keys, v);
      assert ValidOverlay(s, root, shown0[v]);
      MoveSeenPartial(s, t, c, root, shown0[v], b, q, asker == Some(v));
      MoveSeenValid(s, t, c, root, shown0[v], b, q, asker == Some(v));
    }
  }
}
