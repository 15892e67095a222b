/** The sort token as the web client prints and parses it and as the server parses it. */
module SortTokens {
  import opened Text

  datatype SortItem = SortItem(id: string, desc: bool)

  /** The server's parse: no sort at all, a rejected token, or a column. */
  datatype ServerSort = NoSort | Rejected | Column(item: SortItem)

  /** lastIndexOf("."), -1 when there is none. */
  function LastDot(s: string): int
    ensures -1 <= LastDot(s) < |s|
    ensures LastDot(s) >= 0 ==> s[LastDot(s)] == '.'
    ensures forall i :: LastDot(s) < i < |s| ==> s[i] != '.'
  {
    if s == "" then -1
    else if s[|s| - 1] == '.' then |s| - 1
    else LastDot(s[..|s| - 1])
  }

  // ---------------------------------------------------------------- sorting.ts

  function SerializeSortingState(value: seq<SortItem>): string {
    if value == [] then "" else value[0].id + "." + (if value[0].desc then "desc" else "asc")
  }

  /** null is the empty list. */
  function ParseSortToken(token: string): seq<SortItem> {
    if token == "" then []
    else
      var dot := LastDot(token);
      if dot == -1 then [SortItem(token, false)]
      else
        var id, direction := token[..dot], token[dot + 1..];
        if direction == "asc" then (if id != "" then [SortItem(id, false)] else [])
        else if direction == "desc" then (if id != "" then [SortItem(id, true)] else [])
        else [SortItem(token, false)]
  }

  function ParseSortingState(value: string): seq<SortItem> {
    var trimmed := Trim(value);
    if trimmed == "" || ',' in trimmed then [] else ParseSortToken(trimmed)
  }

  // ---------------------------------------------------------------- list_query.go

  function CutLastDot(s: string): (string, string, bool) {
    var dot := LastDot(s);
    if dot < 0 then (s, "", false) else (s[..dot], s[dot + 1..], true)
  }

  function ParseSortColumn(sort: string): ServerSort {
    var trimmed := Trim(sort);
    if trimmed == "" then NoSort
    else if ',' in trimmed then Rejected
    else
      var (key, direction, found) := CutLastDot(trimmed);
      if !found then Column(SortItem(trimmed, false))
      else if direction == "asc" then Column(SortItem(key, false))
      else if direction == "desc" then Column(SortItem(key, true))
      else Column(SortItem(trimmed, false))
  }

  // ---------------------------------------------------------------- agreement and round trip

  /**
   For every string the two parsers agree: the client reads an item exactly when
   the server reads that column with a non-empty id, and otherwise nothing.
   */
  lemma ParsersAgree(s: string)
    ensures |ParseSortingState(s)| <= 1
    ensures forall item :: ParseSortingState(s) == [item] <==> ParseSortColumn(s) == Column(item) && item.id != ""
    ensures ParseSortingState(s) == [] <==>
      ParseSortColumn(s) == NoSort || ParseSortColumn(s) == Rejected
      || (ParseSortColumn(s).Column? && ParseSortColumn(s).item.id == "")
  {
  }

  /** Ids that survive printing and parsing: no leading whitespace, no comma, not empty. Dots are fine anywhere. */
  predicate Printable(id: string) {
    id != "" && !IsSpace(id[0]) && ',' !in id
  }

  lemma SuffixDot(id: string, direction: string)
    requires direction == "asc" || direction == "desc"
    ensures var s := id + "." + direction;
      LastDot(s) == |id| && s[..|id|] == id && s[|id| + 1..] == direction
  {
    var s := id + "." + direction;
    assert s[|id|] == '.';
    assert forall i :: |id| < i < |s| ==> s[i] == direction[i - |id| - 1];
  }

  /** An id read by either parser never starts with whitespace, and the server takes no comma. */
  lemma ParsedIdHead(s: string)
    ensures ParseSortingState(s) != [] ==> ParseSortingState(s)[0].id != "" && !IsSpace(ParseSortingState(s)[0].id[0])
    ensures ParseSortColumn(s).Column? ==>
      ParseSortColumn(s).item.id == "" || !IsSpace(ParseSortColumn(s).item.id[0])
  {
    TrimCharacterised(s);
  }

  /** A printed token without leading whitespace is its own trim, and its last dot splits it as it was joined. */
  lemma PrintedToken(item: SortItem)
    requires item.id == "" || !IsSpace(item.id[0])
    ensures var s := SerializeSortingState([item]);
      && s != "" && Trim(s) == s && (',' in s <==> ',' in item.id)
      && LastDot(s) == |item.id| && s[..|item.id|] == item.id
      && s[|item.id| + 1..] == if item.desc then "desc" else "asc"
  {
    var direction := if item.desc then "desc" else "asc";
    var s := SerializeSortingState([item]);
    SuffixDot(item.id, direction);
    CommaOnlyInId(item.id, direction);
    assert s[|s| - 1] == direction[|direction| - 1];
    assert s[0] == if item.id == "" then '.' else item.id[0];
    TrimCharacterised(s);
  }

  lemma RoundTripOf(item: SortItem)
    ensures ParseSortingState(SerializeSortingState([item])) == [item] <==> Printable(item.id)
    ensures ParseSortColumn(SerializeSortingState([item])) == Column(item) <==> item.id == "" || Printable(item.id)
  {
    var s := SerializeSortingState([item]);
    if item.id == "" || !IsSpace(item.id[0]) {
      PrintedToken(item);
    } else {
      ParsedIdHead(s);
    }
  }

  /**
   Printing a sort state and parsing it back gives its first column: on the client
   exactly when the id is printable, on the server also when it is empty.
   */
  lemma SortRoundTrip(value: seq<SortItem>)
    requires value != []
    ensures ParseSortingState(SerializeSortingState(value)) == [value[0]] <==> Printable(value[0].id)
    ensures ParseSortColumn(SerializeSortingState(value)) == Column(value[0])
      <==> value[0].id == "" || Printable(value[0].id)
  {
    RoundTripOf(value[0]);
  }

  predicate EndsWith(s: string, suffix: string) {
    |suffix| <= |s| && forall i :: 0 <= i < |suffix| ==> s[|s| - |suffix| + i] == suffix[i]
  }

  const ASC := ".asc"
  const DESC := ".desc"

  /**
   The token names the column and the direction: `id.asc`, `id.desc`, or the bare
   id for ascending, with blanks around it, and no comma.
   */
  predicate Names(sort: string, id: string, desc: bool) {
    var token := Trim(sort);
    && token != "" && ',' !in token
    && if EndsWith(token, DESC) then desc && token == id + DESC
       else if EndsWith(token, ASC) then !desc && token == id + ASC
       else !desc && token == id
  }

  lemma LastDotIs(token: string, dot: nat)
    requires dot < |token| && token[dot] == '.' && forall i :: dot < i < |token| ==> token[i] != '.'
    ensures LastDot(token) == dot
  {
  }

  lemma EndsDesc(token: string)
    requires EndsWith(token, DESC)
    ensures LastDot(token) == |token| - 5 && token[|token| - 4..] == "desc"
  {
    var n := |token|;
    assert DESC == ['.', 'd', 'e', 's', 'c'] && "desc" == ['d', 'e', 's', 'c'];
    assert token[n - 5] == DESC[0] && token[n - 4] == DESC[1] && token[n - 3] == DESC[2];
    assert token[n - 2] == DESC[3] && token[n - 1] == DESC[4];
    LastDotIs(token, n - 5);
  }

  lemma EndsAsc(token: string)
    requires EndsWith(token, ASC)
    ensures LastDot(token) == |token| - 4 && token[|token| - 3..] == "asc"
  {
    var n := |token|;
    assert ASC == ['.', 'a', 's', 'c'] && "asc" == ['a', 's', 'c'];
    assert token[n - 4] == ASC[0] && token[n - 3] == ASC[1] && token[n - 2] == ASC[2] && token[n - 1] == ASC[3];
    LastDotIs(token, n - 4);
  }

  lemma CutMeansEnd(token: string, direction: string, suffix: string)
    requires LastDot(token) >= 0 && token[LastDot(token) + 1..] == direction && suffix == "." + direction
    ensures EndsWith(token, suffix)
  {
    var dot := LastDot(token);
    forall i | 0 <= i < |suffix| ensures token[|token| - |suffix| + i] == suffix[i] {
      if 0 < i {
        assert suffix[i] == direction[i - 1] == token[dot + 1..][i - 1];
      }
    }
  }

  /** The column of a token, by how it ends. */
  function ColumnOf(token: string): SortItem {
    if EndsWith(token, DESC) then SortItem(token[..|token| - |DESC|], true)
    else if EndsWith(token, ASC) then SortItem(token[..|token| - |ASC|], false)
    else SortItem(token, false)
  }

  lemma ServerColumn(sort: string)
    requires Trim(sort) != "" && ',' !in Trim(sort)
    ensures ParseSortColumn(sort) == Column(ColumnOf(Trim(sort)))
  {
    var token := Trim(sort);
    if EndsWith(token, DESC) {
      EndsDesc(token);
    } else if EndsWith(token, ASC) {
      EndsAsc(token);
    } else {
      PlainColumn(sort);
    }
  }

  lemma PlainColumn(sort: string)
    requires Trim(sort) != "" && ',' !in Trim(sort)
    requires !EndsWith(Trim(sort), DESC) && !EndsWith(Trim(sort), ASC)
    ensures ParseSortColumn(sort) == Column(SortItem(Trim(sort), false))
  {
    var token := Trim(sort);
    if LastDot(token) >= 0 {
      if token[LastDot(token) + 1..] == "desc" {
        CutMeansEnd(token, "desc", DESC);
      } else if token[LastDot(token) + 1..] == "asc" {
        CutMeansEnd(token, "asc", ASC);
      }
    }
  }

  lemma ColumnIsNamed(sort: string, id: string, desc: bool)
    requires Trim(sort) != "" && ',' !in Trim(sort)
    ensures ColumnOf(Trim(sort)) == SortItem(id, desc) <==> Names(sort, id, desc)
  {
    var token := Trim(sort);
    if EndsWith(token, DESC) {
      CutSuffix(token, id, DESC);
    } else if EndsWith(token, ASC) {
      CutSuffix(token, id, ASC);
    }
  }

  lemma CutSuffix(token: string, id: string, suffix: string)
    requires EndsWith(token, suffix)
    ensures token[..|token| - |suffix|] == id <==> token == id + suffix
  {
    assert token == token[..|token| - |suffix|] + suffix;
  }

  /** The server reads a token as the column it names; a blank sort is none, a comma is refused. */
  lemma ServerReads(sort: string, id: string, desc: bool)
    ensures ParseSortColumn(sort) == NoSort <==> Trim(sort) == ""
    ensures ParseSortColumn(sort) == Rejected <==> ',' in Trim(sort)
    ensures ParseSortColumn(sort) == Column(SortItem(id, desc)) <==> Names(sort, id, desc)
  {
    if Trim(sort) != "" && ',' !in Trim(sort) {
      ServerColumn(sort);
      ColumnIsNamed(sort, id, desc);
    }
  }

  lemma CommaOnlyInId(id: string, direction: string)
    requires direction == "asc" || direction == "desc"
    ensures ',' in id + "." + direction <==> ',' in id
  {
    var s := id + "." + direction;
    if ',' in id {
      var i :| 0 <= i < |id| && id[i] == ',';
      assert s[i] == ',';
    }
  }
}
