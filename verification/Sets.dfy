/** Choosing from a set. */
module Sets {
  lemma Member<T>(s: set<T>) returns (t: T)
    requires s != {}
    ensures t in s
  {
    t :| t in s;
  }
}
