/** New ids: some string not taken yet, which is all the model needs of a random UUID. */
module Ids {

  /** No finite set holds every string. */
  lemma UnusedExists(taken: set<string>) returns (id: string)
    ensures id !in taken
  {
    id := Longer(taken);
  }

  lemma {:induction false} Longer(taken: set<string>) returns (id: string)
    ensures forall s :: s in taken ==> |s| < |id|
    decreases taken
  {
    if taken == {} {
      id := "";
    } else {
      var s :| s in taken;
      var rest := Longer(taken - {s});
      id := rest + s + "x";
      assert forall t :: t in taken ==> t == s || t in taken - {s};
    }
  }

  method NewId(taken: set<string>) returns (id: string)
    ensures id !in taken
  {
    ghost var some := UnusedExists(taken);
    id :| id !in taken;
  }
}
