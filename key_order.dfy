/**
 * The ascending key order of std::map<std::string, _>: strings compared
 * character by character, a proper prefix before its extensions.
 * The registry and the factory keep their key sets as sequences sorted
 * in this order, which is the order in which the engine visits species.
 */
module KeyOrder {

  /** Lexicographic "strictly less than" on strings. */
  predicate Less(a: string, b: string)
    decreases |a|
  {
    if |a| == 0 then |b| > 0
    else if |b| == 0 then false
    else if a[0] < b[0] then true
    else a[0] == b[0] && Less(a[1..], b[1..])
  }

  lemma {:induction false} LessIrreflexive(a: string)
    ensures !Less(a, a)
    decreases |a|
  {
    if |a| > 0 {
      LessIrreflexive(a[1..]);
    }
  }

  lemma {:induction false} LessTrichotomy(a: string, b: string)
    requires a != b
    ensures Less(a, b) || Less(b, a)
    decreases |a|
  {
    if |a| > 0 && |b| > 0 && a[0] == b[0] {
      assert a == [a[0]] + a[1..] && b == [b[0]] + b[1..];
      LessTrichotomy(a[1..], b[1..]);
    }
  }

  /** Every earlier element is strictly less than every later one. */
  predicate Sorted(s: seq<string>)
  {
    forall i, j :: 0 <= i < j < |s| ==> Less(s[i], s[j])
  }

  /** A sorted sequence holds no name twice. */
  lemma SortedIsDistinct(s: seq<string>)
    requires Sorted(s)
    ensures forall i, j :: 0 <= i < j < |s| ==> s[i] != s[j]
  {
    forall i, j | 0 <= i < j < |s|
      ensures s[i] != s[j]
    {
      LessIrreflexive(s[i]);
    }
  }

  /** The key order after std::map inserts `n` (no change when `n` is already a key). */
  function Insert(s: seq<string>, n: string): (r: seq<string>)
    ensures forall x :: x in r <==> x in s || x == n
    ensures n !in s ==> |r| == |s| + 1
    decreases |s|
  {
    if s == [] then [n]
    else if n == s[0] then s
    else if Less(n, s[0]) then [n] + s
    else [s[0]] + Insert(s[1..], n)
  }

  /** Inserting into a sorted key order keeps it sorted, and a present key changes nothing. */
  lemma {:induction false} InsertSorted(s: seq<string>, n: string)
    requires Sorted(s)
    ensures Sorted(Insert(s, n))
    ensures n in s ==> Insert(s, n) == s
    decreases |s|
  {
    if s == [] || n == s[0] {
    } else if Less(n, s[0]) {
      LessIrreflexiveOnAll(s, n);
      LessIrreflexive(n);
      ConsSorted(n, s);
    } else {
      LessTrichotomy(n, s[0]);
      var tail := s[1..];
      assert Sorted(tail);
      InsertSorted(tail, n);
      assert s == [s[0]] + tail;
      assert forall x :: x in tail ==> Less(s[0], x);
      ConsSorted(s[0], Insert(tail, n));
    }
  }

  /** A name below every element of a sorted sequence can lead it. */
  lemma ConsSorted(h: string, t: seq<string>)
    requires Sorted(t)
    requires forall x :: x in t ==> Less(h, x)
    ensures Sorted([h] + t)
  {
    var r := [h] + t;
    forall i, j | 0 <= i < j < |r|
      ensures Less(r[i], r[j])
    {
      if i > 0 {
        assert r[i] == t[i - 1] && r[j] == t[j - 1];
      } else {
        assert r[j] == t[j - 1];
        assert r[j] in t;
      }
    }
  }

  /** Helper for Insert: a name below the head of a sorted sequence is below all of it. */
  lemma LessIrreflexiveOnAll(s: seq<string>, n: string)
    requires Sorted(s) && |s| > 0 && Less(n, s[0])
    ensures forall i :: 0 <= i < |s| ==> Less(n, s[i])
  {
    forall i | 0 < i < |s|
      ensures Less(n, s[i])
    {
      LessTransitive(n, s[0], s[i]);
    }
  }

  lemma {:induction false} LessTransitive(a: string, b: string, c: string)
    requires Less(a, b) && Less(b, c)
    ensures Less(a, c)
    decreases |a|
  {
    if |a| > 0 && |b| > 0 && |c| > 0 && a[0] == b[0] && b[0] == c[0] {
      LessTransitive(a[1..], b[1..], c[1..]);
    }
  }

  /** The key order the registry's constructor builds by inserting grass, cow and tiger in turn. */
  lemma SpeciesInsertions()
    ensures Insert([], "grass") == ["grass"]
    ensures Insert(["grass"], "cow") == ["cow", "grass"]
    ensures Insert(["cow", "grass"], "tiger") == ["cow", "grass", "tiger"]
  {
    assert Less("cow", "grass");
    assert !Less("tiger", "cow") && !Less("tiger", "grass");
    assert Insert(["grass"], "tiger") == ["grass", "tiger"];
  }
}
