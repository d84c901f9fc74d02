/** `Task`: an immutable record of id, title and priority. Its getters `getId`, `getTitle`
    and `getPriority` are the datatype's destructors `id`, `title` and `priority`; being a
    datatype value, no operation can change a field after construction. */
module Tasks {
  import opened JavaInt
  import opened Optional

  /** The priority levels the task manager uses. */
  datatype Priority = HIGH | MEDIUM | LOW

  datatype Task = Task(id: int32, title: string, priority: Priority)

  /** An enum constant's `toString`: its name. */
  function PriorityName(p: Priority): string
  {
    match p
    case HIGH => "HIGH"
    case MEDIUM => "MEDIUM"
    case LOW => "LOW"
  }

  function PriorityFromName(s: string): Option<Priority>
  {
    if s == "HIGH" then Some(HIGH)
    else if s == "MEDIUM" then Some(MEDIUM)
    else if s == "LOW" then Some(LOW)
    else None
  }

  predicate IsDigit(c: char) {
    '0' <= c <= '9'
  }

  /** Decimal digits of a natural number, most significant first, without leading zeros. */
  function NatToString(n: nat): (s: string)
    ensures |s| >= 1 && forall i :: 0 <= i < |s| ==> IsDigit(s[i])
    decreases n
  {
    var last := ('0' as int + n % 10) as char;
    if n < 10 then [last] else NatToString(n / 10) + [last]
  }

  /** `Integer.toString`: an optional minus sign followed by the digits. */
  function IntToString(n: int): (s: string)
    ensures ' ' !in s && |s| >= 1
  {
    if n < 0 then "-" + NatToString(-n) else NatToString(n)
  }

  function ParseNat(s: string): nat
    requires forall i :: 0 <= i < |s| ==> IsDigit(s[i])
  {
    if s == [] then 0
    else
      assert IsDigit(s[|s| - 1]);
      ParseNat(s[..|s| - 1]) * 10 + (s[|s| - 1] as int - '0' as int)
  }

  /** Reads back what `IntToString` writes; `None` for anything else. */
  function ParseInt(s: string): Option<int>
  {
    if |s| >= 2 && s[0] == '-' && forall i :: 1 <= i < |s| ==> IsDigit(s[i]) then
      var magnitude: int := ParseNat(s[1..]);
      Some(-magnitude)
    else if |s| >= 1 && forall i :: 0 <= i < |s| ==> IsDigit(s[i]) then
      Some(ParseNat(s))
    else None
  }

  lemma {:induction false} ParseNatToString(n: nat)
    ensures ParseNat(NatToString(n)) == n
    decreases n
  {
    if n >= 10 {
      ParseNatToString(n / 10);
      var s := NatToString(n);
      assert s[..|s| - 1] == NatToString(n / 10);
    }
  }

  /** Decimal rendering loses nothing: the number is read back exactly. */
  lemma ParseIntToString(n: int)
    ensures ParseInt(IntToString(n)) == Some(n)
  {
    var s := IntToString(n);
    if n < 0 {
      var digits := NatToString(-n);
      ParseNatToString(-n);
      assert s == "-" + digits && s[1..] == digits;
      assert forall i :: 1 <= i < |s| ==> IsDigit(s[i]) by {
        forall i | 1 <= i < |s| ensures IsDigit(s[i]) {
          assert s[i] == digits[i - 1];
        }
      }
    } else {
      ParseNatToString(n);
      assert s == NatToString(n) && IsDigit(s[0]);
    }
  }

  /** `toString`: id, title and priority separated by single spaces. Neither the id nor
      the priority holds a space, so the id runs to the first space, the priority starts
      after the last one, and the title, spaces and all, is what lies between. */
  function ToString(t: Task): (r: string)
    ensures FirstIndexOf(r, ' ') < LastIndexOf(r, ' ')
    ensures r[..FirstIndexOf(r, ' ')] == IntToString(t.id as int)
    ensures r[FirstIndexOf(r, ' ') + 1..LastIndexOf(r, ' ')] == t.title
    ensures r[LastIndexOf(r, ' ') + 1..] == PriorityName(t.priority)
  {
    var ids, name := IntToString(t.id as int), PriorityName(t.priority);
    SpacesAround(ids, t.title, name);
    ids + " " + t.title + " " + name
  }

  /** Index of the first occurrence of c in s, or |s| when there is none. */
  function FirstIndexOf(s: string, c: char): (k: nat)
    ensures k <= |s| && c !in s[..k] && (k < |s| ==> s[k] == c)
  {
    if s == [] then 0 else if s[0] == c then 0 else 1 + FirstIndexOf(s[1..], c)
  }

  /** Index of the last occurrence of c in s, or -1 when there is none. */
  function LastIndexOf(s: string, c: char): (k: int)
    ensures -1 <= k < |s| && c !in s[k + 1..] && (k >= 0 ==> s[k] == c)
  {
    if s == [] then -1 else if s[|s| - 1] == c then |s| - 1 else LastIndexOf(s[..|s| - 1], c)
  }

  /** Reads a task back from its `toString`: the id runs to the first space, the priority
      from the last one, and the title (which may hold spaces) is what lies between. */
  function Parse(s: string): Option<Task>
  {
    var first := FirstIndexOf(s, ' ');
    var last := LastIndexOf(s, ' ');
    if first < last then
      match (ParseInt(s[..first]), PriorityFromName(s[last + 1..]))
      case (Some(id), Some(p)) =>
        if MIN_VALUE <= id <= MAX_VALUE then Some(Task(id as int32, s[first + 1..last], p)) else None
      case _ => None
    else None
  }

  /** Where the first space is when the text before it has none. */
  lemma {:induction false} FirstSpaceAt(front: string, rest: string)
    requires ' ' !in front
    ensures FirstIndexOf(front + " " + rest, ' ') == |front|
  {
    if front != [] {
      assert front[0] in front && ' ' !in front[1..];
      FirstSpaceAt(front[1..], rest);
      assert (front + " " + rest)[1..] == front[1..] + " " + rest;
    }
  }

  /** Where the last space is when the text after it has none. */
  lemma {:induction false} LastSpaceAt(front: string, name: string)
    requires ' ' !in name
    ensures LastIndexOf(front + " " + name, ' ') == |front|
  {
    var s := front + " " + name;
    if name != [] {
      var init := name[..|name| - 1];
      assert name[|name| - 1] in name && ' ' !in init;
      LastSpaceAt(front, init);
      assert s[..|s| - 1] == front + " " + init;
    }
  }

  /** Three fields joined by single spaces, the outer two space-free: the first space
      ends the first field and the last space starts the third. */
  lemma SpacesAround(ids: string, title: string, name: string)
    requires ' ' !in ids && ' ' !in name
    ensures var s := ids + " " + title + " " + name;
      && FirstIndexOf(s, ' ') == |ids| && LastIndexOf(s, ' ') == |ids| + 1 + |title|
      && s[..|ids|] == ids && s[|ids| + 1..|ids| + 1 + |title|] == title
      && s[|ids| + 2 + |title|..] == name
  {
    var s := ids + " " + title + " " + name;
    var front := ids + " " + title;
    assert s == ids + " " + (title + " " + name) == front + " " + name;
    FirstSpaceAt(ids, title + " " + name);
    LastSpaceAt(front, name);
    var k, j := |ids|, |front|;
    assert s[..k] == ids;
    assert s[j + 1..] == name;
    assert s[k + 1..j] == title;
  }

  /** Parse splits at the first and the last space. */
  lemma ParseFields(ids: string, title: string, name: string)
    requires ' ' !in ids && ' ' !in name
    ensures var s := ids + " " + title + " " + name;
      Parse(s) == match (ParseInt(ids), PriorityFromName(name))
        case (Some(id), Some(p)) =>
          if MIN_VALUE <= id <= MAX_VALUE then Some(Task(id as int32, title, p)) else None
        case _ => None
  {
    var s := ids + " " + title + " " + name;
    SpacesAround(ids, title, name);
    var first, last := FirstIndexOf(s, ' '), LastIndexOf(s, ' ');
    assert s[..first] == ids && s[first + 1..last] == title && s[last + 1..] == name;
  }

  /** `toString` keeps every field: parsing it gives back the task. */
  lemma ParseToString(t: Task)
    ensures Parse(ToString(t)) == Some(t)
  {
    ParseFields(IntToString(t.id as int), t.title, PriorityName(t.priority));
    ParseIntToString(t.id as int);
  }
}
