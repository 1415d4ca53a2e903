/**
 * The pieces of the Java string library that a profile's textual form is
 * built from: `AbstractCollection.toString` on a list of strings
 * ("[a, b, c]"), `String.replace` of a one-character literal by "" (delete
 * every occurrence) and `String.trim` (drop leading and trailing characters
 * whose code is at most U+0020).
 */
module Format {

  /** The items separated by `sep`, as `toString` of a list writes them between its brackets. */
  function Join(items: seq<string>, sep: string): (r: string)
    ensures |items| > 0 ==> items[0] <= r
  {
    if |items| == 0 then ""
    else if |items| == 1 then items[0]
    else items[0] + sep + Join(items[1..], sep)
  }

  /** `toString` of an `ArrayList<String>`: "[" + items joined by ", " + "]". */
  function ListToString(items: seq<string>): (r: string)
    ensures |r| >= 2 && r[0] == '[' && r[|r| - 1] == ']'
  {
    "[" + Join(items, ", ") + "]"
  }

  /** `s.replace(c, "")` for a one-character string `c`: every `c` is dropped, the rest keeps its order. */
  function DeleteAll(s: string, c: char): (r: string)
    ensures c !in r
    ensures |r| <= |s|
  {
    if s == [] then []
    else
      assert s == [s[0]] + s[1..];
      (if s[0] == c then [] else [s[0]]) + DeleteAll(s[1..], c)
  }

  /** The characters `String.trim` strips from both ends. */
  predicate IsTrimmable(ch: char)
  {
    ch <= ' '
  }

  /** The text with its leading trimmable characters dropped. */
  function TrimLeading(s: string): string
  {
    if |s| > 0 && IsTrimmable(s[0]) then TrimLeading(s[1..]) else s
  }

  /** The text with its trailing trimmable characters dropped. */
  function TrimTrailing(s: string): string
  {
    if |s| > 0 && IsTrimmable(s[|s| - 1]) then TrimTrailing(s[..|s| - 1]) else s
  }

  /** `s.trim()`: both ends stripped of trimmable characters, leaving nothing or a text with visible ends. */
  function Trim(s: string): (r: string)
    ensures |r| <= |s|
    ensures r == [] || (!IsTrimmable(r[0]) && !IsTrimmable(r[|r| - 1]))
  {
    var l := TrimLeading(s);
    TrimLeadingSuffix(s);
    TrimTrailingPrefix(l);
    TrimTrailing(l)
  }

  /** Dropping the leading trimmable characters leaves a suffix that is empty or starts with a visible character. */
  lemma {:induction false} TrimLeadingSuffix(s: string)
    ensures var r := TrimLeading(s);
      && |r| <= |s| && r == s[|s| - |r|..] && (r == [] || !IsTrimmable(r[0]))
      && forall j :: 0 <= j < |s| - |r| ==> IsTrimmable(s[j])
  {
    if |s| > 0 && IsTrimmable(s[0]) {
      TrimLeadingSuffix(s[1..]);
    }
  }

  /** Dropping the trailing trimmable characters leaves a prefix that is empty or ends with a visible character. */
  lemma {:induction false} TrimTrailingPrefix(s: string)
    ensures var r := TrimTrailing(s);
      && |r| <= |s| && r == s[..|r|] && (r == [] || !IsTrimmable(r[|r| - 1]))
      && forall j :: |r| <= j < |s| ==> IsTrimmable(s[j])
  {
    if |s| > 0 && IsTrimmable(s[|s| - 1]) {
      TrimTrailingPrefix(s[..|s| - 1]);
    }
  }

  /**
   * `trim` answers the slice `s[i..i + |r|]` of its input: everything before and
   * after it is trimmable, and the slice is empty or has visible characters at
   * both ends.
   */
  lemma TrimIsVisibleSlice(s: string)
    ensures var r := Trim(s); var i := |s| - |TrimLeading(s)|;
      && 0 <= i <= i + |r| <= |s| && r == s[i..i + |r|]
      && (r == [] || (!IsTrimmable(r[0]) && !IsTrimmable(r[|r| - 1])))
      && (forall j :: 0 <= j < i ==> IsTrimmable(s[j]))
      && (forall j :: i + |r| <= j < |s| ==> IsTrimmable(s[j]))
  {
    var l := TrimLeading(s);
    TrimLeadingSuffix(s);
    var i := |s| - |l|;
    assert l == s[i..];
    var r := TrimTrailing(l);
    TrimTrailingPrefix(l);
    assert Trim(s) == r;
    SuffixOfTail(s, i, r);
  }

  /** The slice of a suffix is a slice of the whole, and a trimmable tail of the suffix is a trimmable tail of the whole. */
  lemma SuffixOfTail(s: string, i: nat, r: string)
    requires i <= |s| && |r| <= |s| - i && r == s[i..][..|r|]
    requires forall j :: |r| <= j < |s| - i ==> IsTrimmable(s[i..][j])
    ensures r == s[i..i + |r|]
    ensures forall j :: i + |r| <= j < |s| ==> IsTrimmable(s[j])
  {
    forall j | i + |r| <= j < |s|
      ensures IsTrimmable(s[j])
    {
      assert s[j] == s[i..][j - i];
    }
  }

  /** Trimming a string whose ends are already visible leaves it as it is. */
  lemma TrimKeepsVisibleEnds(s: string)
    requires s == [] || (!IsTrimmable(s[0]) && !IsTrimmable(s[|s| - 1]))
    ensures Trim(s) == s
  {
  }

  /** Deleting a character that does not occur changes nothing. */
  lemma {:induction false} DeleteAllAbsent(s: string, c: char)
    requires c !in s
    ensures DeleteAll(s, c) == s
  {
    if s != [] {
      DeleteAllAbsent(s[1..], c);
      assert s == [s[0]] + s[1..];
    }
  }

  /** Deleting one character adds no other. */
  lemma {:induction false} DeleteAllKeepsOut(s: string, c: char, d: char)
    requires d !in s
    ensures d !in DeleteAll(s, c)
  {
    if s != [] {
      DeleteAllKeepsOut(s[1..], c, d);
    }
  }

  /** Deleting distributes over concatenation. */
  lemma {:induction false} DeleteAllAppend(a: string, b: string, c: char)
    ensures DeleteAll(a + b, c) == DeleteAll(a, c) + DeleteAll(b, c)
  {
    if a != [] {
      DeleteAllAppend(a[1..], b, c);
      assert (a + b)[1..] == a[1..] + b;
    } else {
      assert a + b == b;
    }
  }

  /** A character that occurs in no item and not in the separator does not occur in the joined text. */
  lemma {:induction false} JoinExcludes(items: seq<string>, sep: string, c: char)
    requires c !in sep
    requires forall i :: 0 <= i < |items| ==> c !in items[i]
    ensures c !in Join(items, sep)
  {
    if |items| > 1 {
      JoinExcludes(items[1..], sep, c);
    }
  }

  /** With non-empty items, the joined text starts with the first item's first character and ends with the last item's last character. */
  lemma {:induction false} JoinEnds(items: seq<string>, sep: string)
    requires |items| > 0
    requires forall i :: 0 <= i < |items| ==> |items[i]| > 0
    ensures var j := Join(items, sep); var last := items[|items| - 1];
      |j| > 0 && j[0] == items[0][0] && j[|j| - 1] == last[|last| - 1]
  {
    if |items| > 1 {
      JoinEnds(items[1..], sep);
      var rest := Join(items[1..], sep);
      assert Join(items, sep) == items[0] + sep + rest;
    }
  }

  /** Deleting both brackets from a bracketed text that has none inside gives the inside back. */
  lemma StripBrackets(j: string)
    requires '[' !in j && ']' !in j
    ensures DeleteAll(DeleteAll("[" + j + "]", '['), ']') == j
  {
    var closed := j + "]";
    assert "[" + j + "]" == "[" + closed;
    DeleteAllAppend("[", closed, '[');
    assert DeleteAll("[", '[') == "";
    DeleteAllAppend(j, "]", '[');
    DeleteAllAbsent(j, '[');
    assert DeleteAll("]", '[') == "]";
    assert DeleteAll("[" + j + "]", '[') == closed;
    DeleteAllAppend(j, "]", ']');
    DeleteAllAbsent(j, ']');
    assert DeleteAll("]", ']') == "";
  }

  /** With no bracket inside any item, deleting every bracket from `toString` of the list leaves the items joined by ", ". */
  lemma ListWithoutBrackets(items: seq<string>)
    requires forall i :: 0 <= i < |items| ==> '[' !in items[i] && ']' !in items[i]
    ensures DeleteAll(DeleteAll(ListToString(items), '['), ']') == Join(items, ", ")
  {
    assert '[' !in ", " && ']' !in ", ";
    JoinExcludes(items, ", ", '[');
    JoinExcludes(items, ", ", ']');
    StripBrackets(Join(items, ", "));
  }

  /** An item that survives the bracket deletion and the trim unchanged: non-empty, no brackets, no trimmable character at either end. */
  predicate PlainItem(n: string)
  {
    && |n| > 0
    && !IsTrimmable(n[0]) && !IsTrimmable(n[|n| - 1])
    && '[' !in n && ']' !in n
  }

  /** For plain items, `toString` of the list with its brackets deleted and trimmed is the items joined by ", ". */
  lemma UnbracketedList(items: seq<string>)
    requires forall i :: 0 <= i < |items| ==> PlainItem(items[i])
    ensures Trim(DeleteAll(DeleteAll(ListToString(items), '['), ']')) == Join(items, ", ")
  {
    ListWithoutBrackets(items);
    if |items| > 0 {
      JoinEnds(items, ", ");
    }
    TrimKeepsVisibleEnds(Join(items, ", "));
  }
}
