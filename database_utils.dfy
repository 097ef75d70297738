/** Two string helpers of the database layer: turning a table name into its
    DocType name, and recognising the kind of a SQL statement from its first
    word. Whitespace is the ASCII whitespace set and lower-casing is ASCII
    lower-casing. */
module DatabaseUtils {
  import opened Wrappers

  predicate StartsWith(s: string, prefix: string) {
    |prefix| <= |s| && s[..|prefix|] == prefix
  }

  /* ---------------- table name to DocType name ---------------- */

  predicate OccursAt(s: string, pat: string, k: nat) {
    k + |pat| <= |s| && s[k..k + |pat|] == pat
  }

  /** The first index at which `pat` occurs in `s`, if any. */
  function Find(s: string, pat: string): (r: Option<nat>)
    requires |pat| > 0
    ensures r.Some? ==> OccursAt(s, pat, r.value)
    ensures r.Some? ==> forall k: nat :: k < r.value ==> !OccursAt(s, pat, k)
    ensures r.None? ==> forall k: nat :: !OccursAt(s, pat, k)
  {
    if |s| < |pat| then None
    else if s[..|pat|] == pat then Some(0)
    else
      var r := Find(s[1..], pat);
      assert forall k: nat :: OccursAt(s, pat, k + 1) <==> OccursAt(s[1..], pat, k) by {
        forall k: nat
          ensures OccursAt(s, pat, k + 1) <==> OccursAt(s[1..], pat, k)
        {
          if k + 1 + |pat| <= |s| {
            var a, b := s[k + 1..k + 1 + |pat|], s[1..][k..k + |pat|];
            assert forall i :: 0 <= i < |pat| ==> a[i] == b[i];
            assert a == b;
          }
        }
      }
      assert !OccursAt(s, pat, 0);
      match r
      case None =>
        assert forall k: nat :: !OccursAt(s, pat, k) by {
          forall k: nat
            ensures !OccursAt(s, pat, k)
          {
            if k > 0 {
              assert !OccursAt(s[1..], pat, k - 1);
            }
          }
        }
        None
      case Some(k) =>
        assert forall j: nat :: j < k + 1 ==> !OccursAt(s, pat, j) by {
          forall j: nat | j < k + 1
            ensures !OccursAt(s, pat, j)
          {
            if j > 0 {
              assert !OccursAt(s[1..], pat, j - 1);
            }
          }
        }
        Some(k + 1)
  }

  /** `s.replace(pat, "", 1)`: the first occurrence removed. */
  function RemoveFirst(s: string, pat: string): string
    requires |pat| > 0
  {
    match Find(s, pat)
    case None => s
    case Some(k) => s[..k] + s[k + |pat|..]
  }

  /** `s.replace(c, "")`: every occurrence of a character removed. */
  function RemoveChar(s: string, c: char): (r: string)
    ensures c !in r
    ensures forall x :: x != c ==> (x in r <==> x in s)
    ensures c !in s ==> r == s
  {
    if |s| == 0 then ""
    else if s[0] == c then RemoveChar(s[1..], c)
    else
      var r := [s[0]] + RemoveChar(s[1..], c);
      assert forall x :: x in s <==> x == s[0] || x in s[1..];
      r
  }

  lemma {:induction false} RemoveCharAppend(s: string, t: string, c: char)
    ensures RemoveChar(s + t, c) == RemoveChar(s, c) + RemoveChar(t, c)
  {
    if |s| > 0 {
      assert (s + t)[0] == s[0];
      assert (s + t)[1..] == s[1..] + t;
      RemoveCharAppend(s[1..], t, c);
      if s[0] != c {
        var a, b := RemoveChar(s[1..], c), RemoveChar(t, c);
        assert RemoveChar(s + t, c) == [s[0]] + (a + b);
        assert [s[0]] + (a + b) == ([s[0]] + a) + b;
      }
    } else {
      assert s + t == t;
    }
  }

  /** Both kinds of quote removed. */
  function Unquoted(s: string): (r: string)
    ensures '`' !in r && '"' !in r
  {
    RemoveChar(RemoveChar(s, '`'), '"')
  }

  /** `get_doctype_name`: a table name starting with `tab`, `` `tab `` or
      `"tab` loses its first `tab`; then every quote is removed. */
  function GetDoctypeName(tableName: string): (r: string)
    ensures '`' !in r && '"' !in r
  {
    var name :=
      if StartsWith(tableName, "tab") || StartsWith(tableName, "`tab") || StartsWith(tableName, "\"tab")
      then RemoveFirst(tableName, "tab") else tableName;
    Unquoted(name)
  }

  /** The prefix `tab` is dropped together with the quotes, while a name
      without one of the three prefixes keeps every `tab` it contains and
      only loses its quotes. */
  lemma GetDoctypeNameStripsPrefix(tableName: string)
    ensures StartsWith(tableName, "tab") ==> GetDoctypeName(tableName) == Unquoted(tableName[3..])
    ensures StartsWith(tableName, "`tab") || StartsWith(tableName, "\"tab") ==>
              GetDoctypeName(tableName) == Unquoted(tableName[4..])
    ensures !(StartsWith(tableName, "tab") || StartsWith(tableName, "`tab") || StartsWith(tableName, "\"tab")) ==>
              GetDoctypeName(tableName) == Unquoted(tableName)
  {
    if StartsWith(tableName, "tab") {
      assert OccursAt(tableName, "tab", 0);
      assert RemoveFirst(tableName, "tab") == tableName[3..];
    } else if StartsWith(tableName, "`tab") || StartsWith(tableName, "\"tab") {
      var q := tableName[0];
      assert tableName[1..4] == tableName[..4][1..];
      assert OccursAt(tableName, "tab", 1);
      assert tableName[0..3][0] == q;
      assert !OccursAt(tableName, "tab", 0);
      var rest := tableName[4..];
      assert RemoveFirst(tableName, "tab") == [q] + rest;
      assert GetDoctypeName(tableName) == Unquoted([q] + rest);
      UnquotedDropsQuote(q, rest);
    }
  }

  lemma UnquotedDropsQuote(q: char, s: string)
    requires q == '`' || q == '"'
    ensures Unquoted([q] + s) == Unquoted(s)
  {
    assert ([q] + s)[1..] == s;
    if q == '"' {
      assert RemoveChar([q] + s, '`') == [q] + RemoveChar(s, '`');
      assert ([q] + RemoveChar(s, '`'))[1..] == RemoveChar(s, '`');
    }
  }

  /** The two examples the helper is written for. */
  lemma GetDoctypeNameExamples()
    ensures GetDoctypeName("tabItem") == "Item"
    ensures GetDoctypeName("`tabItem`") == "Item"
  {
    var item := "Item";
    assert '`' !in item && '"' !in item;
    assert RemoveChar(item, '`') == item;
    assert Unquoted(item) == item;
    GetDoctypeNameStripsPrefix("tabItem");
    assert "tabItem"[3..] == item;
    GetDoctypeNameStripsPrefix("`tabItem`");
    assert "`tabItem`"[4..] == item + "`";
    RemoveCharAppend(item, "`", '`');
    assert RemoveChar("`", '`') == RemoveChar("", '`') == "";
    assert RemoveChar(item + "`", '`') == item + "";
    assert item + "" == item;
  }

  /* ---------------- statement kind ---------------- */

  /** The usual ASCII whitespace: space, tab, line feed, carriage return,
      vertical tab and form feed. The ASCII separators \x1c-\x1f, which
      Python's `split()` and `lstrip()` also strip, are left out. */
  predicate IsSpace(c: char) {
    c == ' ' || c == '\t' || c == '\n' || c == '\r' || c == '\U{000B}' || c == '\U{000C}'
  }

  /** `s.lstrip()`. */
  function LStrip(s: string): (r: string)
    ensures |r| <= |s| && r == s[|s| - |r|..]
    ensures |r| == 0 || !IsSpace(r[0])
    ensures forall k :: 0 <= k < |s| - |r| ==> IsSpace(s[k])
  {
    if |s| == 0 || !IsSpace(s[0]) then s else LStrip(s[1..])
  }

  /** The characters before the first whitespace. */
  function TakeWord(s: string): (r: string)
    ensures |r| <= |s| && r == s[..|r|]
    ensures forall c :: c in r ==> !IsSpace(c)
    ensures |r| < |s| ==> IsSpace(s[|r|])
  {
    if |s| == 0 || IsSpace(s[0]) then "" else [s[0]] + TakeWord(s[1..])
  }

  function LowerChar(c: char): char {
    if 'A' <= c <= 'Z' then (c as int + 32) as char else c
  }

  /** `s.lower()` on ASCII letters. */
  function Lower(s: string): (r: string)
    ensures |r| == |s| && forall k :: 0 <= k < |s| ==> r[k] == LowerChar(s[k])
  {
    if |s| == 0 then "" else [LowerChar(s[0])] + Lower(s[1..])
  }

  /** A single statement kind or a tuple of them. */
  datatype QueryType = Single(kind: string) | AnyOf(kinds: seq<string>)

  datatype QueryError = EmptyQuery   // `split()` of a blank query has no first element

  /** The first word of the query: fails on a blank query. */
  function FirstWord(query: string): (r: Result<string, QueryError>)
    ensures r.Failure? <==> LStrip(query) == ""
    ensures r.Success? ==> |r.value| > 0 && forall c :: c in r.value ==> !IsSpace(c)
  {
    var stripped := LStrip(query);
    if stripped == "" then Failure(EmptyQuery) else Success(TakeWord(stripped))
  }

  function Kinds(queryType: QueryType): seq<string> {
    match queryType
    case Single(kind) => [kind]
    case AnyOf(kinds) => kinds
  }

  /** `is_query_type`: whether the lower-cased first word of the query
      starts with the statement kind (or one of them). */
  function IsQueryType(query: string, queryType: QueryType): (r: Result<bool, QueryError>)
    ensures r.Failure? <==> LStrip(query) == ""
    ensures r.Success? ==>
              (r.value <==> exists kind :: kind in Kinds(queryType) && StartsWith(Lower(FirstWord(query).value), kind))
  {
    var word :- FirstWord(query);
    Success(exists kind :: kind in Kinds(queryType) && StartsWith(Lower(word), kind))
  }

  /** Leading whitespace does not change the answer. */
  lemma IsQueryTypeIgnoresIndent(query: string, queryType: QueryType, indent: string)
    requires forall k :: 0 <= k < |indent| ==> IsSpace(indent[k])
    ensures IsQueryType(indent + query, queryType) == IsQueryType(query, queryType)
  {
    LStripSkipsIndent(query, indent);
    assert FirstWord(indent + query) == FirstWord(query);
  }

  lemma {:induction false} LStripSkipsIndent(query: string, indent: string)
    requires forall k :: 0 <= k < |indent| ==> IsSpace(indent[k])
    ensures LStrip(indent + query) == LStrip(query)
  {
    if |indent| > 0 {
      assert (indent + query)[0] == indent[0];
      assert (indent + query)[1..] == indent[1..] + query;
      LStripSkipsIndent(query, indent[1..]);
    } else {
      assert indent + query == query;
    }
  }

  /** The kind is not lower-cased: a kind holding an upper-case letter never
      matches. */
  lemma UpperCaseKindNeverMatches(query: string, kind: string, k: nat)
    requires k < |kind| && 'A' <= kind[k] <= 'Z'
    requires IsQueryType(query, Single(kind)).Success?
    ensures !IsQueryType(query, Single(kind)).value
  {
  }

  /** A blank query fails instead of answering. */
  lemma BlankQueryFails(queryType: QueryType)
    ensures IsQueryType(" \n\t", queryType) == Failure(EmptyQuery)
  {
    assert LStrip(" \n\t") == "";
  }
}
