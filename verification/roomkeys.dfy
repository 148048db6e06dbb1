/** Room keys: the normalisation `joinRoom` applies to a requested room id,
    and the key it synthesises for a new geo room. */
module RoomKeys {
  import opened Common

  /** `roomId.trim().toLowerCase()`. */
  function Normalize(s: string): string {
    ToLower(Trim(s))
  }

  lemma {:induction false} ToLowerIdempotent(s: string)
    ensures ToLower(ToLower(s)) == ToLower(s)
  {
    forall i | 0 <= i < |s|
      ensures ToLower(ToLower(s))[i] == ToLower(s)[i]
    {
      LowerCharIdempotent(s[i]);
    }
  }

  lemma {:induction false} ToLowerAppend(a: string, b: string)
    ensures ToLower(a + b) == ToLower(a) + ToLower(b)
  {
    assert forall i :: 0 <= i < |a + b| ==> ToLower(a + b)[i] == (ToLower(a) + ToLower(b))[i];
  }

  /** Lower-casing never creates or removes a space, so it commutes with the
      two halves of `trim`. */
  lemma {:induction false} TrimStartToLower(s: string)
    ensures TrimStart(ToLower(s)) == ToLower(TrimStart(s))
    decreases |s|
  {
    if s != [] {
      LowerCharIdempotent(s[0]);
      assert ToLower(s)[1..] == ToLower(s[1..]);
      TrimStartToLower(s[1..]);
    }
  }

  lemma {:induction false} TrimEndToLower(s: string)
    ensures TrimEnd(ToLower(s)) == ToLower(TrimEnd(s))
    decreases |s|
  {
    if s != [] {
      LowerCharIdempotent(s[|s| - 1]);
      assert ToLower(s)[..|s| - 1] == ToLower(s[..|s| - 1]);
      TrimEndToLower(s[..|s| - 1]);
    }
  }

  lemma TrimToLower(s: string)
    ensures Trim(ToLower(s)) == ToLower(Trim(s))
  {
    TrimStartToLower(s);
    TrimEndToLower(TrimStart(s));
  }

  /** Normalising an already normalised key changes nothing. */
  lemma NormalizeIdempotent(s: string)
    ensures Normalize(Normalize(s)) == Normalize(s)
  {
    TrimToLower(Trim(s));
    TrimOfTrimmed(Trim(s));
    ToLowerIdempotent(Trim(s));
  }

  /** Two ids differing only in letter case normalise to the same key. */
  lemma NormalizeIgnoresCase(s: string)
    ensures Normalize(ToLower(s)) == Normalize(s)
  {
    TrimToLower(s);
    ToLowerIdempotent(Trim(s));
  }

  lemma {:induction false} TrimStartSpaces(p: string, x: string)
    requires AllSpace(p)
    ensures TrimStart(p + x) == TrimStart(x)
    decreases |p|
  {
    if p == [] {
      assert p + x == x;
    } else {
      assert (p + x)[0] == p[0] && IsSpace(p[0]);
      assert (p + x)[1..] == p[1..] + x;
      AllSpaceCons(p);
      TrimStartSpaces(p[1..], x);
      assert TrimStart(p + x) == TrimStart(p[1..] + x);
    }
  }

  lemma {:induction false} TrimEndSpaces(x: string, q: string)
    requires AllSpace(q)
    ensures TrimEnd(x + q) == TrimEnd(x)
    decreases |q|
  {
    if q == [] {
      assert x + q == x;
    } else {
      assert (x + q)[|x + q| - 1] == q[|q| - 1] && IsSpace(q[|q| - 1]);
      assert (x + q)[..|x + q| - 1] == x + q[..|q| - 1];
      var q' := q[..|q| - 1];
      assert AllSpace(q') by {
        forall i | 0 <= i < |q'| ensures IsSpace(q'[i]) { assert q'[i] == q[i]; }
      }
      TrimEndSpaces(x, q[..|q| - 1]);
      assert TrimEnd(x + q) == TrimEnd(x + q[..|q| - 1]);
    }
  }

  lemma {:induction false} TrimStartAppend(s: string, q: string)
    ensures !AllSpace(s) ==> TrimStart(s + q) == TrimStart(s) + q
    ensures AllSpace(s) ==> TrimStart(s + q) == TrimStart(q)
    decreases |s|
  {
    if s == [] {
      assert s + q == q;
    } else {
      assert (s + q)[0] == s[0];
      assert (s + q)[1..] == s[1..] + q;
      if IsSpace(s[0]) {
        AllSpaceCons(s);
        TrimStartAppend(s[1..], q);
        assert TrimStart(s + q) == TrimStart(s[1..] + q);
      } else {
        assert !AllSpace(s);
      }
    }
  }

  /** Leading and trailing white space around an id does not change its key. */
  lemma NormalizeIgnoresPadding(p: string, s: string, q: string)
    requires AllSpace(p) && AllSpace(q)
    ensures Normalize(p + s + q) == Normalize(s)
  {
    assert p + s + q == p + (s + q);
    TrimStartSpaces(p, s + q);
    TrimStartAppend(s, q);
    if AllSpace(s) {
      AllSpaceTrimStart(q);
      TrimEmptyIffAllSpace(s);
    } else {
      TrimEndSpaces(TrimStart(s), q);
    }
  }

  /** A normalised key holds no upper-case ASCII letter. */
  lemma NormalizeHasNoUpper(s: string)
    ensures forall i :: 0 <= i < |Normalize(s)| ==> !('A' <= Normalize(s)[i] <= 'Z')
  {
  }

  // ---------------------------------------------------------------------
  // Geo rooms

  const GeoPrefix: string := "GeoRoom_"

  /** `` `GeoRoom_${x}_${y}` `` for integer coordinates. */
  function GeoRoomName(x: int, y: int): (r: string)
    ensures r != ""
  {
    GeoPrefix + IntToString(x) + "_" + IntToString(y)
  }

  lemma FirstSeparator(a: string, b: string)
    requires '_' !in a
    ensures (a + "_" + b)[|a|] == '_'
    ensures forall k :: 0 <= k < |a| ==> (a + "_" + b)[k] != '_'
  {
    assert forall k :: 0 <= k < |a| ==> (a + "_" + b)[k] == a[k];
  }

  lemma {:induction false} SplitAtSeparator(a: string, b: string, c: string, d: string)
    requires '_' !in a && '_' !in c
    requires a + "_" + b == c + "_" + d
    ensures a == c && b == d
  {
    var s := a + "_" + b;
    FirstSeparator(a, b);
    FirstSeparator(c, d);
    assert |a| == |c|;
    assert a == s[..|a|] == c;
    assert b == s[|a| + 1..] == d;
  }

  lemma NoSeparatorInNumber(i: int)
    ensures '_' !in IntToString(i)
  {
  }

  /** Different coordinates never share a geo room, and equal coordinates
      always do: two users creating a geo room at the same point converge on
      one key. */
  lemma GeoRoomNameInjective(x1: int, y1: int, x2: int, y2: int)
    ensures GeoRoomName(x1, y1) == GeoRoomName(x2, y2) <==> x1 == x2 && y1 == y2
  {
    if GeoRoomName(x1, y1) == GeoRoomName(x2, y2) {
      var a, b := IntToString(x1) + "_" + IntToString(y1), IntToString(x2) + "_" + IntToString(y2);
      assert GeoRoomName(x1, y1) == GeoPrefix + a;
      assert GeoRoomName(x2, y2) == GeoPrefix + b;
      assert a == GeoRoomName(x1, y1)[|GeoPrefix|..] == b;
      NoSeparatorInNumber(x1);
      NoSeparatorInNumber(x2);
      SplitAtSeparator(IntToString(x1), IntToString(y1), IntToString(x2), IntToString(y2));
      IntToStringInjective(x1, x2);
      IntToStringInjective(y1, y2);
    }
  }

  /** A geo room key starts with the capital `G` of `GeoRoom_`, and a
      normalised id never holds a capital, so no id sent to `joinRoom` can
      name an existing geo room. */
  lemma GeoRoomNotNameable(s: string, x: int, y: int)
    ensures Normalize(s) != GeoRoomName(x, y)
  {
    NormalizeHasNoUpper(s);
    assert GeoRoomName(x, y)[0] == 'G';
  }
}
