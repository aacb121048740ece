/** The skip list's insert, as the step it is in the interleaving model: in a quiet list, nobody can
    tell its writes apart. */
module Refinement {
  import opened Keys
  import opened DataLayer
  import SearchLayer
  import opened Interleaving

  /** The state s shows the list sl. */
  ghost predicate Shows(s: State, sl: SearchLayer.SkipList)
    reads sl
  {
    && s.links == sl.links && s.linked == sl.heights && s.currentLevel == sl.currentLevel
    && s.level.Keys == sl.links.Keys && forall k {:trigger s.level[k]} :: k in s.level ==> s.level[k] == |sl.links[k]|
  }

  method InsertIsAStep(sl: SearchLayer.SkipList, ghost s: State, anchor: Key, r: RemoteAddress, t: LinkedNodeType,
                       level: nat)
    returns (ghost s': State)
    requires sl.Valid() && Shows(s, sl) && Quiet(s)
    requires HEAD < anchor && anchor !in sl.nodes && 1 <= level <= MAX_LEVEL
    modifies sl, sl.nodes.Values`forwards, sl.nodes.Values`backward
    ensures sl.Valid() && Shows(s', sl) && NextWriter(s, Insert(anchor, level), s')
  {
    var ok := sl.Insert(anchor, r, t, level);
    s' := s.(links := sl.links, level := s.level[anchor := level], linked := sl.heights,
        currentLevel := sl.currentLevel);
    assert |sl.links[anchor]| == level;
  }
}
