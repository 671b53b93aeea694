/**
  Test node ids as a Python interpreter holds them, the two interpreter
  regimes, the latin-1 bridge between them, and the order in which the
  writer lists ids.
 */
module Ids {
  import opened Wrappers

  /** One byte of a Python 2 `str` or a Python 3 `bytes` value. */
  type Byte = x: int | 0 <= x < 0x100

  /** One code point of a Python 3 `str` or a Python 2 `unicode` value. */
  type CodePoint = x: int | 0 <= x < 0x110000

  /** A node id: a byte string or a text string. */
  datatype Id = Bytes(bytes: seq<Byte>) | Text(text: seq<CodePoint>)

  /** The major version of the running interpreter (`six.PY2` / `six.PY3`). */
  datatype Major = PY2 | PY3

  /** The first element of `sys.version_info` under each regime. */
  function MajorNumber(m: Major): nat
  {
    if m == PY2 then 2 else 3
  }

  /** The other regime. */
  function Other(m: Major): Major
  {
    if m == PY2 then PY3 else PY2
  }

  /** `b.decode("latin1")`: every byte becomes the code point of the same value; it never fails. */
  function Latin1Decode(b: seq<Byte>): seq<CodePoint>
  {
    seq(|b|, i requires 0 <= i < |b| => b[i] as CodePoint)
  }

  /** `t.encode("latin1")`: fails (None) as soon as one code point is above 255. */
  function Latin1Encode(t: seq<CodePoint>): Option<seq<Byte>>
  {
    if forall i :: 0 <= i < |t| ==> t[i] < 0x100
    then Some(seq(|t|, i requires 0 <= i < |t| => t[i] as Byte))
    else None
  }

  /** Encoding succeeds exactly on the code points that decoding can produce, and inverts it. */
  lemma Latin1Inverse(t: seq<CodePoint>, b: seq<Byte>)
    ensures Latin1Encode(t) == Some(b) <==> Latin1Decode(b) == t
  {
    if Latin1Decode(b) == t {
      assert forall i :: 0 <= i < |t| ==> t[i] == b[i];
      assert Latin1Encode(t).Some?;
      assert Latin1Encode(t).value == b;
    }
  }

  /**
    The extra id a reader running under `reader` adds for `id` when the file
    says it was written by a Python whose major version is `fileMajor`
    (None when that field is not an integer): a Python 3 reader of a Python 2
    file adds the latin-1 decoding of a byte id, a Python 2 reader of a
    Python 3 file adds the latin-1 encoding of a text id when it exists.
   */
  function Alternate(id: Id, reader: Major, fileMajor: Option<int>): Option<Id>
  {
    match id
    case Bytes(b) =>
      if reader == PY3 && fileMajor == Some(2) then Some(Text(Latin1Decode(b))) else None
    case Text(t) =>
      if reader == PY2 && fileMajor == Some(3) then
        match Latin1Encode(t)
        case Some(b) => Some(Bytes(b))
        case None => None
      else None
  }

  /** What the reader adds to its set for one stored id: the id itself and its alternate, if any. */
  function WithAlternate(id: Id, reader: Major, fileMajor: Option<int>): set<Id>
  {
    {id} + match Alternate(id, reader, fileMajor) case Some(a) => {a} case None => {}
  }

  /** `fails.add(id)`, then the alternate's `fails.add` when there is one. */
  method AddWithAlternate(fails: set<Id>, id: Id, reader: Major, fileMajor: Option<int>) returns (r: set<Id>)
    ensures r == fails + WithAlternate(id, reader, fileMajor)
  {
    r := fails + {id};
    var alternate := Alternate(id, reader, fileMajor);
    if alternate.Some? {
      r := r + {alternate.value};
    }
  }

  /** The set a reader builds from the stored ids `s`. */
  ghost function Expanded(s: set<Id>, reader: Major, fileMajor: Option<int>): set<Id>
  {
    s + set x, a | x in s && a == Alternate(x, reader, fileMajor) && a.Some? :: a.value
  }

  /** Reading one more stored id adds that id and its alternate. */
  lemma ExpandedAdd(s: set<Id>, x: Id, reader: Major, fileMajor: Option<int>)
    ensures Expanded(s + {x}, reader, fileMajor) == Expanded(s, reader, fileMajor) + WithAlternate(x, reader, fileMajor)
  {
    var alt := Alternate(x, reader, fileMajor);
    if alt.Some? {
      assert alt.value in Expanded(s + {x}, reader, fileMajor);
    }
  }

  /**
    Bridging never drops a stored id, and adds for each one: under a Python 3
    reader of a Python 2 file, the text id with the byte values as code
    points; under a Python 2 reader of a Python 3 file, the byte id of a text
    id whose code points are all below 256, and nothing for any other.
   */
  lemma BridgingAdds(s: set<Id>, x: Id, reader: Major, fileMajor: Option<int>)
    requires x in s
    ensures s <= Expanded(s, reader, fileMajor)
    ensures reader == PY3 && fileMajor == Some(2) && x.Bytes? ==>
      Text(Latin1Decode(x.bytes)) in Expanded(s, reader, fileMajor)
    ensures reader == PY2 && fileMajor == Some(3) && x.Text? ==>
      (Latin1Encode(x.text).Some? <==> forall i :: 0 <= i < |x.text| ==> x.text[i] < 0x100) &&
      (Latin1Encode(x.text).Some? ==> Bytes(Latin1Encode(x.text).value) in Expanded(s, reader, fileMajor)) &&
      (Latin1Encode(x.text).None? ==> Alternate(x, reader, fileMajor) == None)
  {
    var alt := Alternate(x, reader, fileMajor);
    if alt.Some? {
      assert alt.value in Expanded(s, reader, fileMajor);
    }
  }

  /** When the regimes agree nothing is added. */
  lemma {:induction false} NoAlternateInSameRegime(s: set<Id>, reader: Major)
    ensures Expanded(s, reader, Some(MajorNumber(reader))) == s
  {
    forall x | x in s
      ensures Alternate(x, reader, Some(MajorNumber(reader))) == None
    {
      match x
      case Bytes(_) =>
      case Text(_) =>
    }
  }

  /**
    Bridging is reversible: the alternate a reader adds for an id written by
    the other regime, read back by that other regime from a file of the
    reader's regime, yields the original id.
   */
  lemma AlternateReversible(id: Id, reader: Major, a: Id)
    requires Alternate(id, reader, Some(MajorNumber(Other(reader)))) == Some(a)
    ensures Alternate(a, Other(reader), Some(MajorNumber(reader))) == Some(id)
  {
    match id
    case Bytes(b) =>
      Latin1Inverse(Latin1Decode(b), b);
    case Text(t) =>
      Latin1Inverse(t, a.bytes);
  }

  /** Python's ordering of byte strings and of text strings: lexicographic on values. */
  predicate SeqLt(a: seq<int>, b: seq<int>)
    decreases |a|
  {
    if a == [] then b != []
    else b != [] && (a[0] < b[0] || (a[0] == b[0] && SeqLt(a[1..], b[1..])))
  }

  /**
    The order `sorted` uses. Byte ids are put before text ids so that the
    order is total; the writer never sorts a mixed set.
   */
  predicate IdLt(x: Id, y: Id)
  {
    match (x, y)
    case (Bytes(a), Bytes(b)) => SeqLt(a, b)
    case (Text(a), Text(b)) => SeqLt(a, b)
    case (Bytes(_), Text(_)) => true
    case (Text(_), Bytes(_)) => false
  }

  lemma {:induction false} SeqLtIrreflexive(a: seq<int>)
    ensures !SeqLt(a, a)
    decreases |a|
  {
    if a != [] {
      SeqLtIrreflexive(a[1..]);
    }
  }

  lemma {:induction false} SeqLtTransitive(a: seq<int>, b: seq<int>, c: seq<int>)
    requires SeqLt(a, b) && SeqLt(b, c)
    ensures SeqLt(a, c)
    decreases |a|
  {
    if a != [] && a[0] == b[0] && b[0] == c[0] {
      SeqLtTransitive(a[1..], b[1..], c[1..]);
    }
  }

  lemma {:induction false} SeqLtTotal(a: seq<int>, b: seq<int>)
    requires a != b
    ensures SeqLt(a, b) || SeqLt(b, a)
    decreases |a|
  {
    if a != [] && b != [] && a[0] == b[0] {
      assert a == [a[0]] + a[1..] && b == [b[0]] + b[1..];
      SeqLtTotal(a[1..], b[1..]);
    }
  }

  /** IdLt is a strict total order. */
  lemma IdLtStrictTotal(x: Id, y: Id, z: Id)
    ensures !IdLt(x, x)
    ensures IdLt(x, y) && IdLt(y, z) ==> IdLt(x, z)
    ensures x != y ==> IdLt(x, y) || IdLt(y, x)
  {
    match x {
      case Bytes(a) => SeqLtIrreflexive(a);
      case Text(a) => SeqLtIrreflexive(a);
    }
    if IdLt(x, y) && IdLt(y, z) {
      match (x, y, z) {
        case (Bytes(a), Bytes(b), Bytes(c)) => SeqLtTransitive(a, b, c);
        case (Text(a), Text(b), Text(c)) => SeqLtTransitive(a, b, c);
        case _ =>
      }
    }
    if x != y {
      match (x, y) {
        case (Bytes(a), Bytes(b)) => SeqLtTotal(a, b);
        case (Text(a), Text(b)) => SeqLtTotal(a, b);
        case _ =>
      }
    }
  }

  /** Every element of `r` is smaller than every later one. */
  predicate StrictlySorted(r: seq<Id>)
  {
    forall i, j :: 0 <= i < j < |r| ==> IdLt(r[i], r[j])
  }

  /** `r` holds exactly the elements of `s`. */
  predicate Lists(r: seq<Id>, s: set<Id>)
  {
    (forall x :: x in r ==> x in s) && (forall x :: x in s ==> x in r)
  }

  /** A finite non-empty set of ids has a least element. */
  lemma {:induction false} LeastExists(s: set<Id>)
    requires s != {}
    ensures exists m :: m in s && forall y :: y in s && y != m ==> IdLt(m, y)
    decreases |s|
  {
    var x :| x in s;
    if s - {x} == {} {
      forall y | y in s
        ensures y == x
      {
        assert y !in s - {x};
      }
    } else {
      LeastExists(s - {x});
      var m :| m in s - {x} && forall y :: y in s - {x} && y != m ==> IdLt(m, y);
      if IdLt(m, x) {
        forall y | y in s && y != m
          ensures IdLt(m, y)
        {
          if y == x {
          }
        }
      } else {
        IdLtStrictTotal(x, m, m);
        forall y | y in s && y != x
          ensures IdLt(x, y)
        {
          if y != m {
            IdLtStrictTotal(x, m, y);
          }
        }
      }
    }
  }

  /** The least element of a non-empty set. */
  ghost function Least(s: set<Id>): (m: Id)
    requires s != {}
    ensures m in s && forall y :: y in s && y != m ==> IdLt(m, y)
  {
    LeastExists(s);
    var m :| m in s && forall y :: y in s && y != m ==> IdLt(m, y);
    m
  }

  /** `sorted(s)`: the elements of `s` in increasing order. */
  ghost function SortedListing(s: set<Id>): (r: seq<Id>)
    ensures StrictlySorted(r) && Lists(r, s)
    decreases |s|
  {
    if s == {} then []
    else
      var m := Least(s);
      var rest := SortedListing(s - {m});
      assert forall j :: 0 <= j < |rest| ==> rest[j] in s - {m};
      [m] + rest
  }

  /** There is only one increasing listing of a set, so the writer's output is deterministic. */
  lemma {:induction false} SortedListingUnique(a: seq<Id>, b: seq<Id>)
    requires StrictlySorted(a) && StrictlySorted(b)
    requires forall x :: x in a <==> x in b
    ensures a == b
    decreases |a|
  {
    assert b != [] ==> b[0] in b;
    if a != [] {
      assert a[0] in b;
      assert b != [];
      assert b[0] in a;
      if a[0] != b[0] {
        var i :| 0 <= i < |a| && a[i] == b[0];
        var j :| 0 <= j < |b| && b[j] == a[0];
        assert IdLt(a[0], a[i]);
        assert IdLt(b[0], b[j]);
        IdLtStrictTotal(a[0], b[0], a[0]);
        assert false;
      }
      forall x
        ensures x in a[1..] <==> x in b[1..]
      {
        if x in a[1..] {
          var i :| 1 <= i < |a| && a[i] == x;
          IdLtStrictTotal(a[0], x, x);
          assert x != a[0];
          assert x in b;
        }
        if x in b[1..] {
          var j :| 1 <= j < |b| && b[j] == x;
          IdLtStrictTotal(b[0], x, x);
          assert x != b[0];
          assert x in a;
        }
      }
      SortedListingUnique(a[1..], b[1..]);
      assert a == [a[0]] + a[1..] && b == [b[0]] + b[1..];
    }
  }

  /** `sorted(fails)` done by repeated selection of the least remaining id. */
  method SortIds(s: set<Id>) returns (r: seq<Id>)
    ensures r == SortedListing(s)
  {
    r := [];
    var rest := s;
    while rest != {}
      invariant StrictlySorted(r)
      invariant forall x :: x in s <==> x in r || x in rest
      invariant forall i, y :: 0 <= i < |r| && y in rest ==> IdLt(r[i], y)
      decreases |rest|
    {
      LeastExists(rest);
      var m :| m in rest && forall y :: y in rest && y != m ==> IdLt(m, y);
      forall i, y | 0 <= i < |r| && y in rest - {m}
        ensures IdLt(r[i], y)
      {
      }
      r := r + [m];
      rest := rest - {m};
    }
    forall x | x in r
      ensures x in s
    {
    }
    SortedListingUnique(r, SortedListing(s));
  }
}
