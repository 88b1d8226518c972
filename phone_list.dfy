/** The operations of a record on its ordered list of phone values, as functions on sequences.
    A Phone object is identified with its value; duplicates are allowed. */
module PhoneList {
  import opened Validation

  /** Index of the first entry equal to x (the entry a front-to-back scan stops at), or None. */
  function IndexOf(s: seq<string>, x: string): (r: Option<nat>)
    ensures r.None? <==> x !in s
    ensures r.Some? ==> r.value < |s| && s[r.value] == x
    ensures r.Some? ==> forall j :: 0 <= j < r.value ==> s[j] != x
  {
    if s == [] then None
    else if s[0] == x then Some(0)
    else
      assert s == [s[0]] + s[1..];
      match IndexOf(s[1..], x)
      case None => None
      case Some(i) => Some(i + 1)
  }

  /** Appending x makes it findable: the first match is the old first match if x was
      already present, else the new last entry. */
  lemma {:induction false} IndexOfAppend(s: seq<string>, x: string)
    ensures IndexOf(s + [x], x) == if x in s then IndexOf(s, x) else Some(|s|)
  {
    var t := s + [x];
    assert t[|s|] == x;
    match IndexOf(t, x)
    case Some(k) =>
      if x in s {
        var i := IndexOf(s, x).value;
        assert t[i] == x;
        assert k <= i;
        assert s[k] == x;
      }
  }

  /** edit_phone on the list: the first entry equal to o becomes n, or PhoneNotFound(o). */
  function EditFirst(s: seq<string>, o: string, n: string): (r: Result<seq<string>>)
    ensures r.Err? <==> o !in s
    ensures r.Err? ==> r.error == PhoneNotFound(o)
    ensures r.Ok? ==> exists i :: 0 <= i < |s| && s[i] == o && (forall j :: 0 <= j < i ==> s[j] != o) && r.value == s[i := n]
  {
    match IndexOf(s, o)
    case None => Err(PhoneNotFound(o))
    case Some(i) => Ok(s[i := n])
  }

  /** Editing keeps the length, writes n at the first match, and leaves every other entry,
      later duplicates of o included, as it was. */
  lemma EditFirstKeepsOthers(s: seq<string>, o: string, n: string, j: nat)
    requires o in s && j < |s|
    ensures |EditFirst(s, o, n).value| == |s|
    ensures EditFirst(s, o, n).value[j] == if Some(j) == IndexOf(s, o) then n else s[j]
  {
  }

  /** The written value is not re-validated: a list of valid phones can hold an invalid one
      after an edit. */
  lemma EditDoesNotRevalidate()
    ensures exists s, o, n :: (forall i :: 0 <= i < |s| ==> ValidatePhone(s[i]).Pass?)
                              && EditFirst(s, o, n).Ok?
                              && ValidatePhone(EditFirst(s, o, n).value[0]).Fail?
  {
    var s := ["1234567890"];
    assert ValidatePhone(s[0]).Pass?;
    assert EditFirst(s, "1234567890", "abc").value == ["abc"];
    assert ValidatePhone("abc").Fail?;
  }

  /** delete_phone on the list: the entries not equal to x, in their original order. */
  function Without(s: seq<string>, x: string): (r: seq<string>)
    ensures x !in r
    ensures multiset(r) == multiset(s)[x := 0]
  {
    if s == [] then []
    else
      assert s == [s[0]] + s[1..];
      if s[0] == x then Without(s[1..], x)
      else [s[0]] + Without(s[1..], x)
  }

  /** Filtering distributes over concatenation, so relative order is kept. */
  lemma {:induction false} WithoutConcat(a: seq<string>, b: seq<string>, x: string)
    ensures Without(a + b, x) == Without(a, x) + Without(b, x)
  {
    if a == [] {
      assert a + b == b;
    } else {
      assert (a + b)[1..] == a[1..] + b;
      WithoutConcat(a[1..], b, x);
    }
  }

  /** Deleting an absent phone changes nothing. */
  lemma {:induction false} WithoutAbsent(s: seq<string>, x: string)
    requires x !in s
    ensures Without(s, x) == s
  {
    if s != [] {
      assert x !in s[1..];
      WithoutAbsent(s[1..], x);
    }
  }

  /** Deleting twice leaves the same list as deleting once. */
  lemma {:induction false} WithoutIdempotent(s: seq<string>, x: string)
    ensures Without(Without(s, x), x) == Without(s, x)
  {
    WithoutAbsent(Without(s, x), x);
  }

  /** '; '-style join: the parts in order with sep between neighbours. */
  function Join(parts: seq<string>, sep: string): string
  {
    if parts == [] then ""
    else if |parts| == 1 then parts[0]
    else parts[0] + sep + Join(parts[1..], sep)
  }

  /** Joining one more part adds the separator and the part at the end. */
  lemma {:induction false} JoinAppend(parts: seq<string>, p: string, sep: string)
    ensures Join(parts + [p], sep) == if parts == [] then p else Join(parts, sep) + sep + p
  {
    if |parts| > 1 {
      assert (parts + [p])[1..] == parts[1..] + [p];
      JoinAppend(parts[1..], p, sep);
    } else if |parts| == 1 {
      assert (parts + [p])[1..] == [p];
    } else {
      assert parts + [p] == [p];
    }
  }
}
