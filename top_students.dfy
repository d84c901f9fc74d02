/** `Task1TopScoringStudents`: sort the students by marks, highest first, keep the first
    three and take their names. `Stream.sorted` is stable, so students with equal marks
    keep their list order; the sort is modelled as a stable insertion sort. */
module TopScoringStudents {
  import opened JavaInt

  datatype Student = Student(name: string, marks: int32)

  /** Marks never increase along the list. */
  predicate Descending(s: seq<Student>)
  {
    forall i, j :: 0 <= i < j < |s| ==> s[i].marks >= s[j].marks
  }

  /** The students with exactly the given marks, in list order. */
  function WithMarks(s: seq<Student>, m: int32): seq<Student>
  {
    if s == [] then []
    else (if s[0].marks == m then [s[0]] else []) + WithMarks(s[1..], m)
  }

  /** Places x after every student with at least its marks: a later arrival goes behind
      its equals, which is what keeps the sort stable. */
  function Insert(sorted: seq<Student>, x: Student): (r: seq<Student>)
    ensures |r| == |sorted| + 1
  {
    if sorted == [] then [x]
    else if sorted[0].marks >= x.marks then
      assert sorted == [sorted[0]] + sorted[1..];
      [sorted[0]] + Insert(sorted[1..], x)
    else [x] + sorted
  }

  /** Insert adds exactly x: the result is a permutation of the input plus x. */
  lemma {:induction false} InsertPermutes(sorted: seq<Student>, x: Student)
    ensures multiset(Insert(sorted, x)) == multiset(sorted) + multiset{x}
  {
    if sorted != [] && sorted[0].marks >= x.marks {
      InsertPermutes(sorted[1..], x);
      assert sorted == [sorted[0]] + sorted[1..];
    }
  }

  /** `sorted(comparingInt(Student::marks).reversed())`. */
  function SortByMarksDesc(s: seq<Student>): (r: seq<Student>)
    ensures |r| == |s|
  {
    if s == [] then [] else Insert(SortByMarksDesc(s[..|s| - 1]), s[|s| - 1])
  }

  /** The first three students of the sorted list (fewer if there are fewer). */
  function TopStudents(s: seq<Student>): (r: seq<Student>)
    ensures |r| == (if |s| < 3 then |s| else 3)
    ensures r == SortByMarksDesc(s)[..|r|]
  {
    var sorted := SortByMarksDesc(s);
    sorted[..if |sorted| < 3 then |sorted| else 3]
  }

  /** The students `limit(3)` drops. */
  function LeftOut(s: seq<Student>): (r: seq<Student>)
    ensures TopStudents(s) + r == SortByMarksDesc(s)
  {
    var sorted := SortByMarksDesc(s);
    sorted[if |sorted| < 3 then |sorted| else 3..]
  }

  /** The whole pipeline: `limit(3).map(Student::name)`. */
  function TopNames(s: seq<Student>): (names: seq<string>)
    ensures |names| == |TopStudents(s)|
    ensures forall i :: 0 <= i < |names| ==> names[i] == TopStudents(s)[i].name
  {
    var top := TopStudents(s);
    seq(|top|, i requires 0 <= i < |top| => top[i].name)
  }

  lemma DescendingCons(h: Student, t: seq<Student>)
    requires Descending(t)
    requires forall k :: 0 <= k < |t| ==> h.marks >= t[k].marks
    ensures Descending([h] + t)
  {
    var r := [h] + t;
    forall i, j | 0 <= i < j < |r| ensures r[i].marks >= r[j].marks {
      if i > 0 {
        assert r[i] == t[i - 1] && r[j] == t[j - 1];
      } else {
        assert r[j] == t[j - 1];
      }
    }
  }

  lemma DescendingTail(sorted: seq<Student>)
    requires sorted != [] && Descending(sorted)
    ensures Descending(sorted[1..])
    ensures forall k :: 0 <= k < |sorted| ==> sorted[0].marks >= sorted[k].marks
  {
    var tail := sorted[1..];
    forall i, j | 0 <= i < j < |tail| ensures tail[i].marks >= tail[j].marks {
      assert tail[i] == sorted[i + 1] && tail[j] == sorted[j + 1];
    }
  }

  lemma {:induction false} InsertDescending(sorted: seq<Student>, x: Student)
    requires Descending(sorted)
    ensures Descending(Insert(sorted, x))
  {
    if sorted == [] {
    } else if sorted[0].marks >= x.marks {
      var tail := sorted[1..];
      DescendingTail(sorted);
      InsertDescending(tail, x);
      var rest := Insert(tail, x);
      InsertPermutes(tail, x);
      forall k | 0 <= k < |rest| ensures sorted[0].marks >= rest[k].marks {
        assert rest[k] in multiset(rest);
        if rest[k] != x {
          assert rest[k] in multiset(tail);
          var j :| 0 <= j < |tail| && tail[j] == rest[k];
          assert tail[j] == sorted[j + 1];
        }
      }
      DescendingCons(sorted[0], rest);
    } else {
      DescendingCons(x, sorted);
    }
  }

  lemma {:induction false} WithMarksAppend(a: seq<Student>, b: seq<Student>, m: int32)
    ensures WithMarks(a + b, m) == WithMarks(a, m) + WithMarks(b, m)
    decreases |a|
  {
    if a == [] {
      assert a + b == b;
    } else {
      var ab := a + b;
      assert ab != [] && ab[0] == a[0] && ab[1..] == a[1..] + b;
      WithMarksAppend(a[1..], b, m);
      var h := if a[0].marks == m then [a[0]] else [];
      calc {
        WithMarks(ab, m);
        h + WithMarks(a[1..] + b, m);
        h + (WithMarks(a[1..], m) + WithMarks(b, m));
        (h + WithMarks(a[1..], m)) + WithMarks(b, m);
        WithMarks(a, m) + WithMarks(b, m);
      }
    }
  }

  lemma {:induction false} WithMarksNone(s: seq<Student>, m: int32)
    requires forall i :: 0 <= i < |s| ==> s[i].marks != m
    ensures WithMarks(s, m) == []
  {
    if s != [] {
      WithMarksNone(s[1..], m);
    }
  }

  /** Inserting into a descending list changes each mark group only by appending x to
      its own group. */
  lemma {:induction false} InsertStable(sorted: seq<Student>, x: Student, m: int32)
    requires Descending(sorted)
    ensures WithMarks(Insert(sorted, x), m) == WithMarks(sorted, m) + (if x.marks == m then [x] else [])
  {
    if sorted == [] {
      assert Insert(sorted, x) == [x];
    } else if sorted[0].marks >= x.marks {
      DescendingTail(sorted);
      InsertStable(sorted[1..], x, m);
      InsertBehind(sorted, x, m);
    } else {
      InsertInFront(sorted, x, m);
    }
  }

  lemma {:induction false} WithMarksCons(s: seq<Student>, m: int32)
    requires s != []
    ensures WithMarks(s, m) == WithMarks([s[0]], m) + WithMarks(s[1..], m)
  {
    assert [s[0]][1..] == [];
    assert WithMarks([s[0]], m) == (if s[0].marks == m then [s[0]] else []) + WithMarks([], m);
  }

  lemma InsertBehind(sorted: seq<Student>, x: Student, m: int32)
    requires sorted != [] && sorted[0].marks >= x.marks
    requires WithMarks(Insert(sorted[1..], x), m) == WithMarks(sorted[1..], m) + (if x.marks == m then [x] else [])
    ensures WithMarks(Insert(sorted, x), m) == WithMarks(sorted, m) + (if x.marks == m then [x] else [])
  {
    var r := Insert(sorted, x);
    assert r[0] == sorted[0] && r[1..] == Insert(sorted[1..], x);
    WithMarksCons(r, m);
    WithMarksCons(sorted, m);
  }

  lemma InsertInFront(sorted: seq<Student>, x: Student, m: int32)
    requires Descending(sorted) && sorted != [] && sorted[0].marks < x.marks
    ensures WithMarks(Insert(sorted, x), m) == WithMarks(sorted, m) + (if x.marks == m then [x] else [])
  {
    var r := Insert(sorted, x);
    assert r[0] == x && r[1..] == sorted;
    WithMarksCons(r, m);
    if x.marks == m {
      DescendingTail(sorted);
      WithMarksNone(sorted, m);
    }
  }

  /** The sort puts marks in non-increasing order. */
  lemma {:induction false} SortDescending(s: seq<Student>)
    ensures Descending(SortByMarksDesc(s))
  {
    if s != [] {
      SortDescending(s[..|s| - 1]);
      InsertDescending(SortByMarksDesc(s[..|s| - 1]), s[|s| - 1]);
    }
  }

  /** The sort keeps every student exactly as often as they occur. */
  lemma {:induction false} SortPermutes(s: seq<Student>)
    ensures multiset(SortByMarksDesc(s)) == multiset(s)
  {
    if s != [] {
      var init, last := s[..|s| - 1], s[|s| - 1];
      SortPermutes(init);
      InsertPermutes(SortByMarksDesc(init), last);
      assert s == init + [last];
    }
  }

  /** The sort keeps students with equal marks in their original order. */
  lemma {:induction false} SortStable(s: seq<Student>, m: int32)
    ensures WithMarks(SortByMarksDesc(s), m) == WithMarks(s, m)
  {
    if s != [] {
      var init, last := s[..|s| - 1], s[|s| - 1];
      SortStable(init, m);
      SortDescending(init);
      InsertStable(SortByMarksDesc(init), last, m);
      WithMarksAppend(init, [last], m);
      assert s == init + [last];
    }
  }

  /** The sort puts marks in non-increasing order, keeps every student exactly as often
      as they occur, and keeps students with equal marks in their original order. */
  lemma SortCorrect(s: seq<Student>)
    ensures Descending(SortByMarksDesc(s))
    ensures multiset(SortByMarksDesc(s)) == multiset(s)
    ensures forall m :: WithMarks(SortByMarksDesc(s), m) == WithMarks(s, m)
  {
    SortDescending(s);
    SortPermutes(s);
    forall m ensures WithMarks(SortByMarksDesc(s), m) == WithMarks(s, m) {
      SortStable(s, m);
    }
  }

  /** The result has min(3, n) names, one per top student, in non-increasing order of
      marks; no student left out has more marks than any student kept, and kept and
      left-out students together are exactly the input. */
  lemma TopNamesCorrect(s: seq<Student>)
    ensures |TopNames(s)| == (if |s| < 3 then |s| else 3)
    ensures forall i :: 0 <= i < |TopNames(s)| ==> TopNames(s)[i] == TopStudents(s)[i].name
    ensures Descending(TopStudents(s))
    ensures multiset(TopStudents(s)) + multiset(LeftOut(s)) == multiset(s)
    ensures forall i, j :: 0 <= i < |TopStudents(s)| && 0 <= j < |LeftOut(s)| ==>
      LeftOut(s)[j].marks <= TopStudents(s)[i].marks
  {
    SortCorrect(s);
    var sorted := SortByMarksDesc(s);
    var k := if |sorted| < 3 then |sorted| else 3;
    assert sorted == TopStudents(s) + LeftOut(s);
  }

  /** One step of Insert: x passes a head with at least its marks. */
  lemma InsertPasses(h: Student, t: seq<Student>, x: Student)
    requires h.marks >= x.marks
    ensures Insert([h] + t, x) == [h] + Insert(t, x)
  {
    assert ([h] + t)[1..] == t;
  }

  /** One step of Insert: x stops in front of a head with fewer marks. */
  lemma InsertStops(h: Student, t: seq<Student>, x: Student)
    requires h.marks < x.marks
    ensures Insert([h] + t, x) == [x, h] + t
  {
  }

  // The sample sort, one insertion per lemma: marks 92, 85, 98, 88, 91 in list order.

  lemma SortSampleTwo(a: Student, b: Student)
    requires a.marks == 92 && b.marks == 85
    ensures SortByMarksDesc([a, b]) == [a, b]
  {
    assert [a][..0] == [];
    assert SortByMarksDesc([a]) == [a];
    assert [a, b][..1] == [a];
    InsertPasses(a, [], b);
  }

  lemma SortSampleThree(a: Student, b: Student, c: Student)
    requires a.marks == 92 && b.marks == 85 && c.marks == 98
    ensures SortByMarksDesc([a, b, c]) == [c, a, b]
  {
    SortSampleTwo(a, b);
    assert [a, b, c][..2] == [a, b];
    InsertStops(a, [b], c);
  }

  lemma SortSampleFour(a: Student, b: Student, c: Student, d: Student)
    requires a.marks == 92 && b.marks == 85 && c.marks == 98 && d.marks == 88
    ensures SortByMarksDesc([a, b, c, d]) == [c, a, d, b]
  {
    SortSampleThree(a, b, c);
    assert [a, b, c, d][..3] == [a, b, c];
    InsertStops(b, [], d);
    InsertPasses(a, [b], d);
    InsertPasses(c, [a, b], d);
  }

  lemma InsertSampleFifth(a: Student, b: Student, c: Student, d: Student, e: Student)
    requires a.marks == 92 && b.marks == 85 && c.marks == 98 && d.marks == 88 && e.marks == 91
    ensures Insert([c, a, d, b], e) == [c, a, e, d, b]
  {
    InsertStops(d, [b], e);
    InsertPasses(a, [d, b], e);
    InsertPasses(c, [a, d, b], e);
  }

  lemma SortSample(a: Student, b: Student, c: Student, d: Student, e: Student)
    requires a.marks == 92 && b.marks == 85 && c.marks == 98 && d.marks == 88 && e.marks == 91
    ensures SortByMarksDesc([a, b, c, d, e]) == [c, a, e, d, b]
  {
    var s := [a, b, c, d, e];
    assert s[..4] == [a, b, c, d] && s[4] == e;
    SortSampleFour(a, b, c, d);
    InsertSampleFifth(a, b, c, d, e);
  }

  /** The sample class: Chloe (98), Asha (92) and Elena (91) come out on top. */
  lemma SampleTopThree(asha: Student, ben: Student, chloe: Student, dinesh: Student, elena: Student)
    requires asha == Student("Asha", 92) && ben == Student("Ben", 85) && chloe == Student("Chloe", 98)
    requires dinesh == Student("Dinesh", 88) && elena == Student("Elena", 91)
    ensures TopNames([asha, ben, chloe, dinesh, elena]) == ["Chloe", "Asha", "Elena"]
  {
    SortSample(asha, ben, chloe, dinesh, elena);
    assert TopStudents([asha, ben, chloe, dinesh, elena]) == [chloe, asha, elena];
  }
}
