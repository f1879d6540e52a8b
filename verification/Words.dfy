/** Words of numbers: the order of a dictionary, and the order by length first. */
module Words {

  ghost predicate LessAt(p: seq<nat>, q: seq<nat>, k: nat) {
    k <= |p| && k < |q| && p[..k] == q[..k] && (k < |p| ==> p[k] < q[k])
  }

  /** The order of words in a dictionary. */
  ghost predicate Less(p: seq<nat>, q: seq<nat>) {
    exists k: nat :: LessAt(p, q, k)
  }

  ghost predicate AtLeast(p: seq<nat>, q: seq<nat>) {
    p == q || Less(q, p)
  }

  lemma LessTransitive(p: seq<nat>, q: seq<nat>, r: seq<nat>)
    requires Less(p, q) && Less(q, r)
    ensures Less(p, r)
  {
    var i: nat :| LessAt(p, q, i);
    var j: nat :| LessAt(q, r, j);
    var k := if i < j then i else j;
    assert p[..k] == q[..i][..k] == q[..k] == q[..j][..k];
    assert LessAt(p, r, k);
  }

  lemma LessOneWay(p: seq<nat>, q: seq<nat>)
    requires Less(p, q)
    ensures !Less(q, p) && p != q
  {
    var i: nat :| LessAt(p, q, i);
    assert forall j: nat :: j < i ==> p[..i][j] == q[..i][j];
    assert forall j: nat :: LessAt(q, p, j) && i < j ==> q[..j][i] == p[..j][i];
  }

  lemma LessLonger(p: seq<nat>, i: nat)
    ensures Less(p, p + [i])
  {
    assert LessAt(p, p + [i], |p|);
  }

  lemma LessLast(p: seq<nat>, i: nat, j: nat)
    requires i < j
    ensures Less(p + [i], p + [j])
  {
    assert LessAt(p + [i], p + [j], |p|);
  }

  /** Behind the place where two words part nothing matters. */
  lemma LessApart(p: seq<nat>, q: seq<nat>, k: nat, p': seq<nat>, q': seq<nat>)
    requires LessAt(p, q, k) && k < |p|
    ensures Less(p + p', q + q')
  {
    assert (p + p')[..k] == p[..k] && (q + q')[..k] == q[..k];
    assert LessAt(p + p', q + q', k);
  }

  lemma LessNonEmpty(p: seq<nat>, q: seq<nat>)
    requires AtLeast(p, q) && q != []
    ensures Less([], p)
  {
    assert p != [];
    assert LessAt([], p, 0);
  }

  // ---- shorter words first ----

  /** The shorter word comes first; words of one length come as in a dictionary. */
  ghost predicate Before(p: seq<nat>, q: seq<nat>) {
    |p| < |q| || (|p| == |q| && Less(p, q))
  }

  ghost predicate NotAfter(p: seq<nat>, q: seq<nat>) {
    p == q || Before(p, q)
  }

  lemma BeforeTransitive(p: seq<nat>, q: seq<nat>, r: seq<nat>)
    requires Before(p, q) && Before(q, r)
    ensures Before(p, r)
  {
    hide Less;
    if |p| == |q| == |r| { LessTransitive(p, q, r); }
  }

  lemma BeforeOneWay(p: seq<nat>, q: seq<nat>)
    requires Before(p, q)
    ensures !Before(q, p) && p != q
  {
    hide Less;
    if |p| == |q| { LessOneWay(p, q); }
  }

  /** One more number, whatever it is. */
  lemma BeforeLonger(p: seq<nat>, q: seq<nat>, i: nat, j: nat)
    requires Before(p, q)
    ensures Before(p + [i], q + [j])
  {
    if |p| == |q| {
      var k: nat :| LessAt(p, q, k);
      LessApart(p, q, k, [i], [j]);
    }
  }

  lemma BeforeLast(p: seq<nat>, i: nat, j: nat)
    requires i < j
    ensures Before(p + [i], p + [j])
  {
    LessLast(p, i, j);
  }
}
