/** Facts about finite sets that several parts of the model use. */
module Collections {

  lemma {:induction false} Fewer<T>(s: set<T>, t: set<T>)
    requires s <= t
    ensures |s| <= |t|
  {
    if s != {} {
      var x :| x in s;
      Fewer(s - {x}, t - {x});
    }
  }

  lemma {:induction false} HasLeast(s: set<nat>)
    requires s != {}
    ensures exists i :: i in s && forall j | j in s :: i <= j
  {
    var b :| b in s;
    var t := set i | i in s && i < b;
    assert b !in t && t <= s;
    assert forall i | i in s :: i < b ==> i in t;
    if t == {} {
      assert b in s && forall j | j in s :: b <= j;
    } else {
      HasLeast(t);
      var i :| i in t && forall j | j in t :: i <= j;
      assert i in s && forall j | j in s :: i <= j;
    }
  }
}
