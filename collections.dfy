/// Order-preserving helpers standing for the JavaScript array methods the
/// source uses (`filter`, `join`).
module Collections {

  /// `s.filter(keep)`: the elements of `s` satisfying `keep`, in their order.
  function Filter<T(!new)>(s: seq<T>, keep: T -> bool): (r: seq<T>)
    ensures |r| <= |s|
    ensures forall x :: x in r <==> x in s && keep(x)
  {
    if |s| == 0 then []
    else if keep(s[0]) then [s[0]] + Filter(s[1..], keep)
    else Filter(s[1..], keep)
  }

  /// Filtering distributes over concatenation, so the kept elements keep
  /// their relative order.
  lemma {:induction false} FilterAppend<T(!new)>(a: seq<T>, b: seq<T>, keep: T -> bool)
    ensures Filter(a + b, keep) == Filter(a, keep) + Filter(b, keep)
  {
    if |a| == 0 {
      assert a + b == b;
    } else {
      assert (a + b)[0] == a[0];
      assert (a + b)[1..] == a[1..] + b;
      FilterAppend(a[1..], b, keep);
    }
  }

  /// When every element is kept, the filter returns the sequence itself.
  lemma {:induction false} FilterKeepsAll<T(!new)>(s: seq<T>, keep: T -> bool)
    requires forall i :: 0 <= i < |s| ==> keep(s[i])
    ensures Filter(s, keep) == s
  {
    if |s| > 0 {
      assert keep(s[0]);
      FilterKeepsAll(s[1..], keep);
    }
  }

  /// Two tests that agree on every element filter alike.
  lemma {:induction false} FilterAgrees<T(!new)>(s: seq<T>, keep: T -> bool, keep': T -> bool)
    requires forall i :: 0 <= i < |s| ==> keep(s[i]) == keep'(s[i])
    ensures Filter(s, keep) == Filter(s, keep')
  {
    if |s| > 0 {
      assert keep(s[0]) == keep'(s[0]);
      FilterAgrees(s[1..], keep, keep');
    }
  }

  /// `parts.join(sep)`.
  function Join(parts: seq<string>, sep: string): string
  {
    if |parts| == 0 then ""
    else if |parts| == 1 then parts[0]
    else parts[0] + sep + Join(parts[1..], sep)
  }

  /// Where part `k` starts in `Join(parts, sep)`.
  function Offset(parts: seq<string>, sep: string, k: nat): nat
    requires k <= |parts|
  {
    if k == 0 then 0 else |parts[0]| + |sep| + Offset(parts[1..], sep, k - 1)
  }

  /// Part `k` appears whole in the joined text, starting at `Offset(parts, sep, k)`.
  lemma {:induction false} JoinPlacesPart(parts: seq<string>, sep: string, k: nat)
    requires k < |parts|
    ensures Offset(parts, sep, k) + |parts[k]| <= |Join(parts, sep)|
    ensures Join(parts, sep)[Offset(parts, sep, k)..Offset(parts, sep, k) + |parts[k]|] == parts[k]
  {
    var j := Join(parts, sep);
    if |parts| == 1 {
    } else if k == 0 {
      assert j == parts[0] + (sep + Join(parts[1..], sep));
    } else {
      var head := parts[0] + sep;
      var rest := Join(parts[1..], sep);
      assert j == head + rest;
      JoinPlacesPart(parts[1..], sep, k - 1);
      var o := Offset(parts[1..], sep, k - 1);
      assert Offset(parts, sep, k) == |head| + o;
      assert parts[1..][k - 1] == parts[k];
      assert (head + rest)[|head| + o..|head| + o + |parts[k]|] == rest[o..o + |parts[k]|];
    }
  }

  /// Parts appear in their order: each one ends, and a separator follows,
  /// before the next one starts.
  lemma {:induction false} OffsetsIncrease(parts: seq<string>, sep: string, i: nat, j: nat)
    requires i < j <= |parts|
    ensures Offset(parts, sep, i) + |parts[i]| + |sep| <= Offset(parts, sep, j)
  {
    if i > 0 {
      OffsetsIncrease(parts[1..], sep, i - 1, j - 1);
    } else if j > 1 {
      OffsetsIncrease(parts[1..], sep, 0, j - 1);
    }
  }

  /// Between part `k` and part `k + 1` stands exactly the separator.
  lemma {:induction false} JoinPlacesSeparator(parts: seq<string>, sep: string, k: nat)
    requires k + 1 < |parts|
    ensures Offset(parts, sep, k) + |parts[k]| + |sep| == Offset(parts, sep, k + 1)
    ensures Offset(parts, sep, k + 1) <= |Join(parts, sep)|
    ensures Join(parts, sep)[Offset(parts, sep, k) + |parts[k]|..Offset(parts, sep, k + 1)] == sep
  {
    JoinPlacesPart(parts, sep, k + 1);
    var j := Join(parts, sep);
    var rest := Join(parts[1..], sep);
    if k == 0 {
      assert j == parts[0] + sep + rest;
      assert (parts[0] + sep + rest)[|parts[0]|..|parts[0]| + |sep|] == sep;
    } else {
      var head := parts[0] + sep;
      assert j == head + rest;
      JoinPlacesSeparator(parts[1..], sep, k - 1);
      assert parts[1..][k - 1] == parts[k];
      var a := Offset(parts[1..], sep, k - 1) + |parts[k]|;
      var b := Offset(parts[1..], sep, k);
      assert (head + rest)[|head| + a..|head| + b] == rest[a..b];
    }
  }

  /// The joined text ends where the last part ends.
  lemma {:induction false} JoinEndsWithLast(parts: seq<string>, sep: string)
    requires |parts| > 0
    ensures |Join(parts, sep)| == Offset(parts, sep, |parts| - 1) + |parts[|parts| - 1]|
  {
    if |parts| > 1 {
      JoinEndsWithLast(parts[1..], sep);
      assert parts[1..][|parts| - 2] == parts[|parts| - 1];
    }
  }
}
