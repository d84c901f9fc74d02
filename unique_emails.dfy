/** `Task2UniqueEmailValidator`: one pass over the emails adds each one to the
    insertion-ordered set `unique`; when that add fails (the email was already there) the
    email is added to the insertion-ordered set `duplicates`. An insertion-ordered set is
    modelled as a sequence without repeats, and `add` as "append when absent". */
module UniqueEmails {

  /** No email appears twice. */
  predicate NoRepeats<T(==)>(s: seq<T>)
  {
    forall i, j :: 0 <= i < j < |s| ==> s[i] != s[j]
  }

  /** The contents of `unique` after the first |s| emails. */
  function Dedup<T(==)>(s: seq<T>): (r: seq<T>)
    ensures |r| <= |s|
    ensures s != [] ==> r != [] && r[0] == s[0]
  {
    if s == [] then []
    else
      var prior := Dedup(s[..|s| - 1]);
      var email := s[|s| - 1];
      if email in prior then prior else prior + [email]
  }

  /** The contents of `duplicates` after the first |s| emails: an email is added when
      `unique.add` fails and it is not yet a duplicate. */
  function Dups<T(==)>(s: seq<T>): (r: seq<T>)
    ensures |r| <= |s| - 1 || s == []
  {
    if s == [] then []
    else
      var init := s[..|s| - 1];
      var email := s[|s| - 1];
      var prior := Dups(init);
      if email in Dedup(init) && email !in prior then prior + [email] else prior
  }

  /** The index of the first occurrence of x. */
  function First<T(==)>(s: seq<T>, x: T): (r: nat)
    requires x in s
    ensures r < |s| && s[r] == x && forall k :: 0 <= k < r ==> s[k] != x
  {
    var init := s[..|s| - 1];
    if x in init then
      First(init, x)
    else |s| - 1
  }

  /** The index of the second occurrence of x: where its count reaches two. */
  function Second<T(==)>(s: seq<T>, x: T): (r: nat)
    requires multiset(s)[x] >= 2
    ensures r < |s| && s[r] == x && multiset(s[..r + 1])[x] == 2
  {
    var n := |s| - 1;
    CountLast(s, x);
    if multiset(s[..n])[x] >= 2 then
      var r := Second(s[..n], x);
      assert s[..r + 1] == s[..n][..r + 1];
      r
    else
      assert s[..n + 1] == s;
      n
  }

  /** The count of x in a non-empty list: its count before the last element, plus one
      when the last element is x. */
  lemma CountLast<T>(s: seq<T>, x: T)
    requires multiset(s)[x] > 0
    ensures |s| > 0
    ensures multiset(s)[x] == multiset(s[..|s| - 1])[x] + (if s[|s| - 1] == x then 1 else 0)
  {
    var init := s[..|s| - 1];
    assert s == init + [s[|s| - 1]];
  }

  /** The `forEach` loop of `main`. */
  method PartitionEmails<T(==)>(emails: seq<T>) returns (unique: seq<T>, duplicates: seq<T>)
    ensures unique == Dedup(emails)
    ensures duplicates == Dups(emails)
    ensures NoRepeats(unique) && NoRepeats(duplicates)
  {
    unique, duplicates := [], [];
    for k := 0 to |emails|
      invariant unique == Dedup(emails[..k])
      invariant duplicates == Dups(emails[..k])
    {
      var email := emails[k];
      assert emails[..k + 1][..k] == emails[..k];
      if email !in unique {
        unique := unique + [email];
      } else if email !in duplicates {
        duplicates := duplicates + [email];
      }
    }
    assert emails[..|emails|] == emails;
    DedupNoRepeats(emails);
    DupsNoRepeats(emails);
  }

  lemma {:induction false} Snoc<T>(init: seq<T>, email: T)
    ensures (init + [email])[..|init|] == init
    ensures multiset(init + [email]) == multiset(init) + multiset{email}
  {
  }

  /** One step of the loop, stated on `init + [email]`. */
  lemma {:induction false} Step<T>(init: seq<T>, email: T)
    ensures Dedup(init + [email]) == if email in Dedup(init) then Dedup(init) else Dedup(init) + [email]
    ensures Dups(init + [email]) ==
      if email in Dedup(init) && email !in Dups(init) then Dups(init) + [email] else Dups(init)
  {
    Snoc(init, email);
  }

  lemma {:induction false} FirstSnoc<T>(init: seq<T>, email: T, x: T)
    requires x in init + [email]
    ensures First(init + [email], x) == if x in init then First(init, x) else |init|
  {
    Snoc(init, email);
  }

  lemma {:induction false} SecondSnoc<T>(init: seq<T>, email: T, x: T)
    requires multiset(init + [email])[x] >= 2
    ensures Second(init + [email], x) == if multiset(init)[x] >= 2 then Second(init, x) else |init|
  {
    Snoc(init, email);
  }

  /** `unique` holds exactly the emails of the input. */
  lemma {:induction false} DedupMembers<T>(s: seq<T>)
    ensures forall x :: x in Dedup(s) ==> x in s
    ensures forall x :: x in s ==> x in Dedup(s)
  {
    if s != [] {
      var init := s[..|s| - 1];
      DedupMembers(init);
      assert s == init + [s[|s| - 1]];
    }
  }

  lemma {:induction false} DedupNoRepeats<T>(s: seq<T>)
    ensures NoRepeats(Dedup(s))
  {
    if s != [] {
      DedupNoRepeats(s[..|s| - 1]);
    }
  }

  /** Each email of u occurs in s, and u lists them by their first occurrence in s. */
  predicate ByFirstOccurrence<T(==)>(u: seq<T>, s: seq<T>)
  {
    forall i, j :: 0 <= i < j < |u| ==> u[i] in s && u[j] in s && First(s, u[i]) < First(s, u[j])
  }

  /** Each email of u occurs at least twice in s, and u lists them by their second
      occurrence in s. */
  predicate BySecondOccurrence<T(==)>(u: seq<T>, s: seq<T>)
  {
    forall i, j :: 0 <= i < j < |u| ==>
      multiset(s)[u[i]] >= 2 && multiset(s)[u[j]] >= 2 && Second(s, u[i]) < Second(s, u[j])
  }

  /** `unique` is in first-occurrence order. */
  lemma {:induction false} DedupOrder<T>(s: seq<T>)
    ensures ByFirstOccurrence(Dedup(s), s)
  {
    if s != [] {
      var init, email := s[..|s| - 1], s[|s| - 1];
      DedupOrder(init);
      DedupOrderSnoc(init, email);
      assert s == init + [email];
    }
  }

  lemma {:induction false} DedupOrderSnoc<T>(init: seq<T>, email: T)
    requires ByFirstOccurrence(Dedup(init), init)
    ensures ByFirstOccurrence(Dedup(init + [email]), init + [email])
  {
    var s := init + [email];
    var d, d0 := Dedup(s), Dedup(init);
    Step(init, email);
    DedupMembers(init);
    forall i, j | 0 <= i < j < |d| ensures d[i] in s && d[j] in s && First(s, d[i]) < First(s, d[j]) {
      assert d[i] == d0[i] && d0[i] in d0;
      FirstSnoc(init, email, d[i]);
      if j < |d0| {
        assert d[j] == d0[j] && d0[j] in d0;
        FirstSnoc(init, email, d[j]);
      } else {
        assert d[j] == email && email !in init;
        FirstSnoc(init, email, email);
      }
    }
  }

  /** An email is a duplicate exactly when it occurs at least twice. */
  lemma {:induction false} DupsMembers<T>(s: seq<T>)
    ensures forall x :: x in Dups(s) ==> multiset(s)[x] >= 2
    ensures forall x :: multiset(s)[x] >= 2 ==> x in Dups(s)
  {
    if s != [] {
      var init, email := s[..|s| - 1], s[|s| - 1];
      DupsMembers(init);
      DedupMembers(init);
      assert s == init + [email];
      Snoc(init, email);
    }
  }

  lemma {:induction false} DupsNoRepeats<T>(s: seq<T>)
    ensures NoRepeats(Dups(s))
  {
    if s != [] {
      DupsNoRepeats(s[..|s| - 1]);
    }
  }

  /** `duplicates` is in second-occurrence order. */
  lemma {:induction false} DupsOrder<T>(s: seq<T>)
    ensures BySecondOccurrence(Dups(s), s)
  {
    if s != [] {
      var init, email := s[..|s| - 1], s[|s| - 1];
      DupsOrder(init);
      DupsOrderSnoc(init, email);
      assert s == init + [email];
    }
  }

  lemma {:induction false} DupsOrderSnoc<T>(init: seq<T>, email: T)
    requires BySecondOccurrence(Dups(init), init)
    ensures BySecondOccurrence(Dups(init + [email]), init + [email])
  {
    var s := init + [email];
    var d := Dups(s);
    DupsMembers(s);
    forall i, j | 0 <= i < j < |d|
      ensures multiset(s)[d[i]] >= 2 && multiset(s)[d[j]] >= 2 && Second(s, d[i]) < Second(s, d[j])
    {
      DupsPairSnoc(init, email, i, j);
    }
  }

  /** One pair of `duplicates` after one more email: both repeat, and in second-occurrence
      order. */
  lemma DupsPairSnoc<T>(init: seq<T>, email: T, i: int, j: int)
    requires BySecondOccurrence(Dups(init), init)
    requires 0 <= i < j < |Dups(init + [email])|
    ensures var s, d := init + [email], Dups(init + [email]);
      multiset(s)[d[i]] >= 2 && multiset(s)[d[j]] >= 2 && Second(s, d[i]) < Second(s, d[j])
  {
    var s := init + [email];
    var d, d0 := Dups(s), Dups(init);
    Step(init, email);
    DupsMembers(init);
    DupsMembers(s);
    assert d[i] == d0[i] && d0[i] in d0 && d[j] in d;
    SecondSnoc(init, email, d[i]);
    if j < |d0| {
      assert d[j] == d0[j] && d0[j] in d0;
      SecondSnoc(init, email, d[j]);
    } else {
      assert d[j] == email && email !in d0;
      SecondSnoc(init, email, email);
    }
  }

  /** Every duplicate is also in `unique`. */
  lemma {:induction false} DupsWithinDedup<T>(s: seq<T>)
    ensures forall x :: x in Dups(s) ==> x in Dedup(s)
  {
    DupsMembers(s);
    DedupMembers(s);
    forall x | x in Dups(s) ensures x in s {
      assert multiset(s)[x] > 0;
    }
  }

  lemma {:induction false} NoRepeatsSnoc<T>(init: seq<T>, email: T)
    ensures NoRepeats(init + [email]) <==> NoRepeats(init) && email !in init
  {
    var s := init + [email];
    if email in init {
      var i :| 0 <= i < |init| && init[i] == email;
      assert s[i] == s[|init|];
    }
    if NoRepeats(s) {
      forall i, j | 0 <= i < j < |init| ensures init[i] != init[j] {
        assert init[i] == s[i] && init[j] == s[j];
      }
    }
  }

  /** `unique.size()` never exceeds the number of emails, and equals it exactly when no
      email repeats, which is exactly when `duplicates` is empty. */
  lemma {:induction false} DedupSize<T>(s: seq<T>)
    ensures |Dedup(s)| <= |s|
    ensures |Dedup(s)| == |s| <==> NoRepeats(s)
    ensures Dups(s) == [] <==> NoRepeats(s)
  {
    if s != [] {
      var init, email := s[..|s| - 1], s[|s| - 1];
      DedupSize(init);
      DedupMembers(init);
      assert s == init + [email];
      NoRepeatsSnoc(init, email);
      if email in init {
        assert Dups(s) != [] by {
          DupsMembers(init);
          if email !in Dups(init) {
            assert email in Dups(s);
          }
        }
      }
    }
  }

  /** The first three sample emails: a, b, a. */
  lemma {:induction false} SampleFirstHalf<T>(a: T, b: T)
    requires a != b
    ensures Dedup([a, b, a]) == [a, b] && Dups([a, b, a]) == [a]
  {
    Step([], a);
    assert [] + [a] == [a];
    Step([a], b);
    assert [a] + [b] == [a, b];
    Step([a, b], a);
    assert [a, b] + [a] == [a, b, a];
  }

  /** The fourth and fifth sample emails: c, then b again. */
  lemma {:induction false} SampleSecondHalf<T>(a: T, b: T, c: T)
    requires a != b && a != c && b != c
    ensures Dedup([a, b, a, c, b]) == [a, b, c] && Dups([a, b, a, c, b]) == [a, b]
  {
    SampleFirstHalf(a, b);
    Step([a, b, a], c);
    assert [a, b, a] + [c] == [a, b, a, c];
    Step([a, b, a, c], b);
    assert [a, b, a, c] + [b] == [a, b, a, c, b];
  }

  /** The six sample emails, for any four distinct addresses a, b, c, d. */
  lemma {:induction false} SampleSplit<T>(a: T, b: T, c: T, d: T)
    requires a != b && a != c && a != d && b != c && b != d && c != d
    ensures Dedup([a, b, a, c, b, d]) == [a, b, c, d]
    ensures Dups([a, b, a, c, b, d]) == [a, b]
  {
    SampleSecondHalf(a, b, c);
    Step([a, b, a, c, b], d);
    assert [a, b, a, c, b] + [d] == [a, b, a, c, b, d];
  }

  /** `main`: the size of `unique` is 4 and `duplicates` is [a@ex.com, b@ex.com]. */
  method Sample() returns (uniqueSize: nat, duplicates: seq<string>)
    ensures uniqueSize == 4
    ensures duplicates == ["a@ex.com", "b@ex.com"]
  {
    var emails := ["a@ex.com", "b@ex.com", "a@ex.com", "c@ex.com", "b@ex.com", "d@ex.com"];
    var unique;
    unique, duplicates := PartitionEmails(emails);
    SampleSplit("a@ex.com", "b@ex.com", "c@ex.com", "d@ex.com");
    uniqueSize := |unique|;
  }
}
