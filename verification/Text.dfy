/** The string operations shared by the secret hash and the sort tokens. */
module Text {
  /** One whitespace set stands for Go's TrimSpace and JavaScript's trim. */
  predicate IsSpace(c: char) {
    c == ' ' || c == '\t' || c == '\n' || c == '\r' || c == '\U{000B}' || c == '\U{000C}'
  }

  function TrimLeft(s: string): string {
    if s != [] && IsSpace(s[0]) then TrimLeft(s[1..]) else s
  }

  function TrimRight(s: string): string {
    if s != [] && IsSpace(s[|s| - 1]) then TrimRight(s[..|s| - 1]) else s
  }

  function Trim(s: string): string {
    TrimRight(TrimLeft(s))
  }

  /** No whitespace at either edge. */
  predicate Trimmed(s: string) {
    s == [] || (!IsSpace(s[0]) && !IsSpace(s[|s| - 1]))
  }

  lemma {:induction false} TrimRightKeepsHead(s: string)
    requires s == [] || !IsSpace(s[0])
    ensures Trimmed(TrimRight(s))
  {
    if s != [] && IsSpace(s[|s| - 1]) {
      TrimRightKeepsHead(s[..|s| - 1]);
    }
  }

  lemma {:induction false} TrimLeftHead(s: string)
    ensures TrimLeft(s) == [] || !IsSpace(TrimLeft(s)[0])
  {
    if s != [] && IsSpace(s[0]) {
      TrimLeftHead(s[1..]);
    }
  }

  /** Trimming leaves no whitespace at the edges, and changes nothing when there is none. */
  lemma TrimCharacterised(s: string)
    ensures Trimmed(Trim(s))
    ensures Trimmed(s) <==> Trim(s) == s
  {
    TrimLeftHead(s);
    TrimRightKeepsHead(TrimLeft(s));
    if Trimmed(s) {
      assert TrimLeft(s) == s;
      assert TrimRight(s) == s;
    }
  }

  const BLANKS := " \t\n\r\U{000B}\U{000C}"

  predicate AllBlank(s: string) {
    forall i :: 0 <= i < |s| ==> s[i] in BLANKS
  }

  lemma SpaceIsBlank(c: char)
    ensures IsSpace(c) <==> c in BLANKS
  {
    assert BLANKS == [' ', '\t', '\n', '\r', '\U{000B}', '\U{000C}'];
  }

  lemma {:induction false} TrimLeftCuts(s: string) returns (before: string)
    ensures s == before + TrimLeft(s) && AllBlank(before)
  {
    if s != [] && IsSpace(s[0]) {
      SpaceIsBlank(s[0]);
      var rest := TrimLeftCuts(s[1..]);
      before := [s[0]] + rest;
      assert s == [s[0]] + s[1..];
    } else {
      before := "";
    }
  }

  lemma {:induction false} TrimRightCuts(s: string) returns (after: string)
    ensures s == TrimRight(s) + after && AllBlank(after)
  {
    if s != [] && IsSpace(s[|s| - 1]) {
      var n := |s| - 1;
      SpaceIsBlank(s[n]);
      var rest := TrimRightCuts(s[..n]);
      after := rest + [s[n]];
      assert s == s[..n] + [s[n]];
    } else {
      after := "";
    }
  }

  /** Starts and ends with a character that is not blank, or is empty. */
  predicate BareEdges(s: string) {
    s != "" ==> s[0] !in BLANKS && s[|s| - 1] !in BLANKS
  }

  /** Trimming cuts blanks from both ends, and nothing else. */
  lemma TrimCuts(s: string) returns (before: string, after: string)
    ensures s == before + Trim(s) + after && AllBlank(before) && AllBlank(after) && BareEdges(Trim(s))
  {
    before := TrimLeftCuts(s);
    after := TrimRightCuts(TrimLeft(s));
    TrimCharacterised(s);
    if Trim(s) != "" {
      SpaceIsBlank(Trim(s)[0]);
      SpaceIsBlank(Trim(s)[|Trim(s)| - 1]);
    }
  }

  /** Blank outside a stretch that is bare at both edges, or empty. */
  predicate Core(s: string, from: nat, to: nat) {
    && from <= to <= |s|
    && (forall i :: 0 <= i < |s| && (i < from || to <= i) ==> s[i] in BLANKS)
    && (from < to ==> s[from] !in BLANKS && s[to - 1] !in BLANKS)
  }

  lemma OneCore(s: string, l: nat, r: nat, p: nat, q: nat)
    requires Core(s, l, r) && Core(s, p, q)
    ensures s[l..r] == s[p..q]
  {
  }

  lemma CoreOf(before: string, piece: string, after: string)
    requires AllBlank(before) && AllBlank(after) && BareEdges(piece)
    ensures var s := before + piece + after;
      Core(s, |before|, |before| + |piece|) && s[|before|..|before| + |piece|] == piece
  {
  }

  /** And that determines it: of any way to write a string as blanks, a bare piece and blanks, Trim is the piece. */
  lemma TrimIsThePiece(before: string, piece: string, after: string)
    requires AllBlank(before) && AllBlank(after) && BareEdges(piece)
    ensures Trim(before + piece + after) == piece
  {
    var s := before + piece + after;
    var left, right := TrimCuts(s);
    CoreOf(before, piece, after);
    CoreOf(left, Trim(s), right);
    OneCore(s, |before|, |before| + |piece|, |left|, |left| + |Trim(s)|);
  }
}
