/** The comma-separated scenario filter of the command line. */
module ScenarioFilter {

  const ALL: string := "all"

  function CommaFrom(s: string, from: nat): (k: nat)
    requires from <= |s|
    ensures from <= k <= |s| && (k < |s| ==> s[k] == ',')
    ensures forall j :: from <= j < k ==> s[j] != ','
    decreases |s| - from
  {
    if from == |s| || s[from] == ',' then from else CommaFrom(s, from + 1)
  }

  /** The position of the first comma, or the length. */
  function Comma(s: string): (k: nat)
    ensures k <= |s| && ',' !in s[..k]
    ensures k < |s| ==> s[k] == ','
  {
    CommaFrom(s, 0)
  }

  /** All the elements between commas, empty ones included; never an empty list. */
  function Split(s: string): (parts: seq<string>)
    ensures |parts| > 0
    ensures forall p :: p in parts ==> ',' !in p
    decreases |s|
  {
    var k := Comma(s);
    if k == |s| then [s] else [s[..k]] + Split(s[k + 1..])
  }

  function Join(parts: seq<string>): string {
    if parts == [] then ""
    else if |parts| == 1 then parts[0]
    else parts[0] + "," + Join(parts[1..])
  }

  /**
   * What the filter selects. The scan stops at the end of the string, so a last element that is empty
   * is never compared.
   */
  predicate Enabled(filter: string, name: string) {
    filter == ALL || Selected(filter, name)
  }

  predicate Selected(filter: string, name: string) {
    name in if name != "" then Split(filter) else Split(filter)[..|Split(filter)| - 1]
  }

  predicate Listed(filter: string, name: string)
    decreases |filter|
  {
    var k := Comma(filter);
    filter != "" && (filter[..k] == name || (k < |filter| && Listed(filter[k + 1..], name)))
  }

  lemma {:induction false} ListedMeansElement(filter: string, name: string)
    ensures Listed(filter, name) <==> Selected(filter, name)
    decreases |filter|
  {
    var k := Comma(filter);
    if filter == "" {
    } else if k == |filter| {
      assert filter[..k] == filter;
    } else {
      var rest := filter[k + 1..];
      ListedMeansElement(rest, name);
      var parts, tail := Split(filter), Split(rest);
      assert parts[..|parts| - 1] == [filter[..k]] + tail[..|tail| - 1];
    }
  }

  method ScenarioEnabled(filter: string, name: string) returns (enabled: bool)
    ensures enabled <==> Enabled(filter, name)
  {
    if filter == ALL {
      return true;
    }
    ListedMeansElement(filter, name);
    enabled := Scan(filter, name);
  }

  /** What is listed from the cursor on. */
  predicate ListedFrom(filter: string, name: string, cursor: nat)
    requires cursor <= |filter|
  {
    Listed(filter[cursor..], name)
  }

  /** The scan of the source: a cursor moving from comma to comma. */
  method Scan(filter: string, name: string) returns (found: bool)
    ensures found <==> Listed(filter, name)
  {
    var cursor := 0;
    assert filter[0..] == filter;
    while cursor < |filter|
      invariant cursor <= |filter|
      invariant Listed(filter, name) == ListedFrom(filter, name, cursor)
    {
      hide ListedFrom, Listed, Comma;
      var hit, len := Element(filter, name, cursor);
      ListedStep(filter, name, cursor, len);
      if hit {
        return true;
      }
      if cursor + len == |filter| {
        return false;
      }
      cursor := cursor + len + 1;
    }
    return false;
  }

  /** Compares the element at the cursor, by length and then by content. */
  method Element(filter: string, name: string, cursor: nat) returns (hit: bool, len: nat)
    requires cursor <= |filter|
    ensures len == Comma(filter[cursor..]) <= |filter| - cursor
    ensures hit <==> filter[cursor..cursor + len] == name
  {
    len := FindComma(filter, cursor, filter[cursor..]);
    hit := len == |name| && filter[cursor..cursor + len] == name;
  }

  lemma ListedStep(filter: string, name: string, cursor: nat, len: nat)
    requires cursor < |filter| && len == Comma(filter[cursor..]) <= |filter| - cursor
    ensures ListedFrom(filter, name, cursor)
      == (filter[cursor..cursor + len] == name
          || (cursor + len < |filter| && ListedFrom(filter, name, cursor + len + 1)))
  {
    var rest := filter[cursor..];
    ListedUnfolds(rest, name);
    assert rest[..len] == filter[cursor..cursor + len];
    if cursor + len < |filter| {
      assert rest[len + 1..] == filter[cursor + len + 1..];
    }
  }

  lemma ListedUnfolds(rest: string, name: string)
    requires rest != ""
    ensures Listed(rest, name)
      == (rest[..Comma(rest)] == name || (Comma(rest) < |rest| && Listed(rest[Comma(rest) + 1..], name)))
  {
  }

  /** strchr: the distance to the next comma, or to the end. */
  method FindComma(s: string, from: nat, ghost rest: string) returns (len: nat)
    requires from <= |s| && rest == s[from..]
    ensures len == Comma(rest)
  {
    len := 0;
    while from + len < |s| && s[from + len] != ','
      invariant from + len <= |s| && ',' !in rest[..len]
    {
      len := len + 1;
    }
    CommaIs(rest, len);
  }

  lemma CommaIs(s: string, k: nat)
    requires k <= |s| && ',' !in s[..k] && (k < |s| ==> s[k] == ',')
    ensures Comma(s) == k
  {
  }

  ghost predicate PlainNames(names: seq<string>) {
    forall n :: n in names ==> n != "" && ',' !in n
  }

  lemma CommaAfter(head: string, rest: string)
    requires ',' !in head
    ensures Comma(head + "," + rest) == |head|
    ensures Comma(head) == |head|
  {
    assert (head + "," + rest)[..|head|] == head;
    CommaIs(head + "," + rest, |head|);
    assert head[..|head|] == head;
    CommaIs(head, |head|);
  }

  /** Splitting undoes joining. */
  lemma {:induction false} SplitJoin(parts: seq<string>)
    requires parts != [] && forall p :: p in parts ==> ',' !in p
    ensures Split(Join(parts)) == parts
  {
    if |parts| == 1 {
      CommaAfter(parts[0], "");
    } else {
      var rest := Join(parts[1..]);
      CommaAfter(parts[0], rest);
      SplitJoin(parts[1..]);
      var s := parts[0] + "," + rest;
      assert s[..|parts[0]|] == parts[0];
      assert s[|parts[0]| + 1..] == rest;
    }
  }

  lemma JoinFront(head: string, tail: seq<string>)
    requires tail != []
    ensures Join([head] + tail) == head + "," + Join(tail)
  {
    assert ([head] + tail)[1..] == tail;
  }

  lemma CutAtComma(s: string, k: nat)
    requires k < |s| && s[k] == ','
    ensures s == s[..k] + "," + s[k + 1..]
  {
  }

  /** Joining undoes splitting. */
  lemma {:induction false} JoinSplit(s: string)
    ensures Join(Split(s)) == s
    decreases |s|
  {
    var k := Comma(s);
    if k < |s| {
      var rest := s[k + 1..];
      JoinSplit(rest);
      assert Split(s) == [s[..k]] + Split(rest);
      JoinFront(s[..k], Split(rest));
      CutAtComma(s, k);
    }
  }

  /**
   * A filter made by joining plain names selects exactly those names; the one exception is the
   * single name "all", which selects everything.
   */
  lemma JoinedFilterSelects(names: seq<string>, query: string)
    requires PlainNames(names) && query != ""
    ensures Enabled(Join(names), query) <==> names == [ALL] || query in names
  {
    if names == [] {
      assert Comma("") == 0;
      assert Split("") == [""];
    } else {
      SplitJoin(names);
      if Join(names) == ALL {
        CommaAfter(ALL, "");
        assert Split(ALL) == [ALL];
      }
    }
  }
}
