/**
  The signature extractor of `transformJavaCode`: the leftmost match of the
  regular expression

      int\s+([a-zA-Z_][a-zA-Z0-9_]*)\s*\(\s*int\s+([a-zA-Z_][a-zA-Z0-9_]*)\s*\)

  in the submitted code, yielding the method name (first group) and the
  parameter name (second group).

  The expression is written as a sequence of tokens, `SignaturePattern`. A
  match at position `k` is a split of the text from `k` into consecutive parts,
  one per token, each part fitting its token (`IsSplit`). `Scan` is a greedy
  scanner over the tokens; `Extract` tries every start position from left to
  right, as the JavaScript engine does. Identifier characters, white space,
  `(` and `)` are pairwise disjoint, so in this pattern every greedy step has
  exactly one way to succeed and the scanner never needs to backtrack
  (`MatchAtComplete`).
 */
module Extractor {
  import opened Wrappers
  import opened Chars

  /** The two identifiers the extractor hands to the template generator. */
  datatype Signature = Signature(functionName: string, param: string)

  /** One element of the expression: a literal word, a white-space run
      (`\s+` when `nonEmpty`, `\s*` otherwise), or an identifier. */
  datatype Token = Word(text: string) | Blank(nonEmpty: bool) | Name

  /** The expression, token by token; the identifiers at indices 2 and 8 are
      its two capture groups. */
  const SignaturePattern: seq<Token> := [
    Word("int"), Blank(true), Name, Blank(false), Word("("),
    Blank(false), Word("int"), Blank(true), Name, Blank(false), Word(")")
  ]

  const NameGroup := 2
  const ParamGroup := 8

  /** `part` is matched by token `t` on its own. */
  predicate Fits(t: Token, part: string) {
    match t
    case Word(w) => part == w
    case Blank(nonEmpty) => AllSpaces(part) && (nonEmpty ==> |part| > 0)
    case Name => IsIdentifier(part)
  }

  /** Token `t` cannot be extended past position `j` of `s`. */
  predicate Ends(t: Token, s: string, j: nat)
    requires j <= |s|
  {
    match t
    case Word(_) => true
    case Blank(_) => j == |s| || !IsSpace(s[j])
    case Name => j == |s| || !IsIdChar(s[j])
  }

  /** `b` cuts `s` from position `k` into consecutive parts `s[b[i]..b[i+1]]`,
      the `i`-th fitting `pat[i]`: the tokens match `s[k..b[|pat|]]`. */
  predicate IsSplit(s: string, k: nat, pat: seq<Token>, b: seq<nat>) {
    && |b| == |pat| + 1
    && b[0] == k
    && (forall i :: 0 <= i < |b| ==> b[i] <= |s|)
    && (forall i :: 0 <= i < |pat| ==> b[i] <= b[i + 1])
    && (forall i :: 0 <= i < |pat| ==> Fits(pat[i], s[b[i]..b[i + 1]]))
  }

  /** Every token of the split consumes as much as it could. */
  predicate Maximal(s: string, pat: seq<Token>, b: seq<nat>)
    requires |b| == |pat| + 1
    requires forall i :: 0 <= i < |b| ==> b[i] <= |s|
  {
    forall i :: 0 <= i < |pat| ==> Ends(pat[i], s, b[i + 1])
  }

  /** The two capture groups of a match of `SignaturePattern`. */
  function Groups(s: string, b: seq<nat>): Signature
    requires |b| == |SignaturePattern| + 1 && IsSplit(s, b[0], SignaturePattern, b)
  {
    Signature(s[b[NameGroup]..b[NameGroup + 1]], s[b[ParamGroup]..b[ParamGroup + 1]])
  }

  /** No substring of `s` starting before position `k` matches the expression. */
  ghost predicate NoMatchBefore(s: string, k: nat) {
    forall j: nat, b: seq<nat> :: j < k ==> !IsSplit(s, j, SignaturePattern, b)
  }

  /** No substring of `s` matches the expression. */
  ghost predicate NoMatch(s: string) {
    forall j: nat, b: seq<nat> :: !IsSplit(s, j, SignaturePattern, b)
  }

  /** `p` occurs in `s` at position `k`. */
  predicate At(s: string, k: nat, p: string) {
    k + |p| <= |s| && s[k..k + |p|] == p
  }

  /** `\s*` from position `k`: the end of the longest run of white space there. */
  function SpanSpaces(s: string, k: nat): (j: nat)
    requires k <= |s|
    ensures k <= j <= |s|
    ensures forall i :: k <= i < j ==> IsSpace(s[i])
    ensures j == |s| || !IsSpace(s[j])
    decreases |s| - k
  {
    if k < |s| && IsSpace(s[k]) then SpanSpaces(s, k + 1) else k
  }

  /** `[a-zA-Z0-9_]*` from position `k`: the end of the longest run of identifier characters. */
  function SpanIdChars(s: string, k: nat): (j: nat)
    requires k <= |s|
    ensures k <= j <= |s|
    ensures forall i :: k <= i < j ==> IsIdChar(s[i])
    ensures j == |s| || !IsIdChar(s[j])
    decreases |s| - k
  {
    if k < |s| && IsIdChar(s[k]) then SpanIdChars(s, k + 1) else k
  }

  /** One token, greedily, from position `k`: where it ends, if it matches there. */
  function ScanToken(s: string, k: nat, t: Token): (r: Option<nat>)
    requires k <= |s|
    ensures r.Some? ==> k <= r.value <= |s| && Fits(t, s[k..r.value]) && Ends(t, s, r.value)
  {
    match t
    case Word(w) => if At(s, k, w) then Some(k + |w|) else None
    case Blank(nonEmpty) =>
      var j := SpanSpaces(s, k);
      if nonEmpty && j == k then None else Some(j)
    case Name =>
      if k < |s| && IsIdStart(s[k]) then Some(SpanIdChars(s, k + 1)) else None
  }

  /** The tokens `pat` one after another from position `k`, each greedily. */
  function Scan(s: string, k: nat, pat: seq<Token>): (r: Option<seq<nat>>)
    requires k <= |s|
    ensures r.Some? ==> IsSplit(s, k, pat, r.value) && Maximal(s, pat, r.value)
    decreases |pat|
  {
    if pat == [] then Some([k])
    else
      match ScanToken(s, k, pat[0])
      case None => None
      case Some(j) =>
        match Scan(s, j, pat[1..])
        case None => None
        case Some(rest) => Some([k] + rest)
  }

  /** The expression anchored at position `k`: the split of its match, if any. */
  function MatchAt(s: string, k: nat): (r: Option<seq<nat>>)
    requires k <= |s|
    ensures r.Some? ==> IsSplit(s, k, SignaturePattern, r.value) && Maximal(s, SignaturePattern, r.value)
  {
    Scan(s, k, SignaturePattern)
  }

  /** A successful search: where the leftmost match starts, and its split. */
  datatype Hit = Hit(start: nat, bounds: seq<nat>)

  /** The first position at or after `k` where the expression matches. */
  function FindFrom(s: string, k: nat): (r: Option<Hit>)
    requires k <= |s|
    ensures r.Some? ==> k <= r.value.start <= |s| && MatchAt(s, r.value.start) == Some(r.value.bounds)
    decreases |s| - k
  {
    match MatchAt(s, k)
    case Some(b) => Some(Hit(k, b))
    case None => if k == |s| then None else FindFrom(s, k + 1)
  }

  /** The message of the error `transformJavaCode` throws when nothing matches. */
  const NoSignatureMessage := "No valid recursive int method found in the input code."

  /** `transformJavaCode`'s first step: the groups of the leftmost match, or the error. */
  function Extract(code: string): (r: Result<Signature, string>)
    ensures r.Success? ==> IsIdentifier(r.value.functionName) && IsIdentifier(r.value.param)
    ensures r.Failure? ==> r.error == NoSignatureMessage
  {
    match FindFrom(code, 0)
    case None => Failure(NoSignatureMessage)
    case Some(hit) => Success(Groups(code, hit.bounds))
  }

  // ---------------------------------------------------------------------------
  // The search: leftmost match first

  /** A search that finds nothing has looked at every position it passed. */
  lemma {:induction false} FindFromNone(s: string, k: nat, j: nat)
    requires k <= j <= |s|
    requires FindFrom(s, k).None?
    ensures MatchAt(s, j).None?
    decreases |s| - k
  {
    if j > k {
      FindFromNone(s, k + 1, j);
    }
  }

  /** A search that finds a match found no match at any earlier position. */
  lemma {:induction false} FindFromSkips(s: string, k: nat, j: nat)
    requires k <= |s|
    requires FindFrom(s, k).Some? && k <= j < FindFrom(s, k).value.start
    ensures MatchAt(s, j).None?
    decreases |s| - k
  {
    var m := MatchAt(s, k);
    assert m.None?;
    if j > k {
      assert FindFrom(s, k) == FindFrom(s, k + 1);
      FindFromSkips(s, k + 1, j);
    }
  }

  // ---------------------------------------------------------------------------
  // The greedy scanner finds every match

  /** A token that fits `s[k..j]` and cannot be extended past `j` is scanned to exactly `j`. */
  lemma ScanTokenComplete(s: string, k: nat, t: Token, j: nat)
    requires k <= j <= |s|
    requires Fits(t, s[k..j]) && Ends(t, s, j)
    ensures ScanToken(s, k, t) == Some(j)
  {
    match t
    case Word(w) =>
    case Blank(_) =>
      var e := SpanSpaces(s, k);
      assert forall i :: k <= i < j ==> IsSpace(s[i]) by {
        forall i | k <= i < j ensures IsSpace(s[i]) {
          assert s[k..j][i - k] == s[i];
        }
      }
      if e < j {
        assert false;
      }
    case Name =>
      assert s[k] == s[k..j][0];
      var e := SpanIdChars(s, k + 1);
      assert forall i :: k + 1 <= i < j ==> IsIdChar(s[i]) by {
        forall i | k + 1 <= i < j ensures IsIdChar(s[i]) {
          assert s[k..j][i - k] == s[i];
        }
      }
      if e < j {
        assert false;
      }
  }

  /** A split into maximal parts is exactly what the greedy scanner produces. */
  lemma {:induction false} ScanComplete(s: string, k: nat, pat: seq<Token>, b: seq<nat>)
    requires IsSplit(s, k, pat, b) && Maximal(s, pat, b)
    ensures Scan(s, k, pat) == Some(b)
    decreases |pat|
  {
    if pat == [] {
      assert b == [k];
    } else {
      assert b[0] <= b[1] <= |s|;
      assert Fits(pat[0], s[b[0]..b[1]]);
      ScanTokenComplete(s, k, pat[0], b[1]);
      var rest := b[1..];
      assert IsSplit(s, b[1], pat[1..], rest) by {
        forall i | 0 <= i < |pat[1..]| ensures Fits(pat[1..][i], s[rest[i]..rest[i + 1]]) {
          assert pat[1..][i] == pat[i + 1];
        }
      }
      assert Maximal(s, pat[1..], rest) by {
        forall i | 0 <= i < |pat[1..]| ensures Ends(pat[1..][i], s, rest[i + 1]) {
          assert pat[1..][i] == pat[i + 1];
        }
      }
      ScanComplete(s, b[1], pat[1..], rest);
      assert b == [k] + rest;
    }
  }

  /** The `i`-th part of a split fits the `i`-th token. */
  lemma PartFits(s: string, k: nat, pat: seq<Token>, b: seq<nat>, i: nat)
    requires IsSplit(s, k, pat, b) && i < |pat|
    ensures b[i] <= b[i + 1] <= |s| && Fits(pat[i], s[b[i]..b[i + 1]])
  {
  }

  /** What follows part `i` when part `i + 1` is an identifier: an identifier start. */
  lemma NextIsName(s: string, k: nat, pat: seq<Token>, b: seq<nat>, i: nat)
    requires IsSplit(s, k, pat, b) && i + 1 < |pat| && pat[i + 1] == Name
    ensures b[i + 1] < |s| && IsIdStart(s[b[i + 1]])
  {
    PartFits(s, k, pat, b, i + 1);
    assert s[b[i + 1]] == s[b[i + 1]..b[i + 2]][0];
  }

  /** What follows part `i` when part `i + 1` is a word: the word's first character. */
  lemma NextIsWord(s: string, k: nat, pat: seq<Token>, b: seq<nat>, i: nat, w: string)
    requires IsSplit(s, k, pat, b) && i + 1 < |pat| && pat[i + 1] == Word(w) && |w| > 0
    ensures b[i + 1] < |s| && s[b[i + 1]] == w[0]
  {
    PartFits(s, k, pat, b, i + 1);
    assert s[b[i + 1]] == s[b[i + 1]..b[i + 2]][0];
  }

  /** What follows part `i` when part `i + 1` is a white-space run: white space, unless the run is empty. */
  lemma NextIsBlank(s: string, k: nat, pat: seq<Token>, b: seq<nat>, i: nat, nonEmpty: bool)
    requires IsSplit(s, k, pat, b) && i + 1 < |pat| && pat[i + 1] == Blank(nonEmpty)
    ensures b[i + 1] == b[i + 2] || (b[i + 1] < |s| && IsSpace(s[b[i + 1]]))
  {
    PartFits(s, k, pat, b, i + 1);
    if b[i + 1] < b[i + 2] {
      assert s[b[i + 1]] == s[b[i + 1]..b[i + 2]][0];
    }
  }

  /** In a match of `SignaturePattern` white space is followed by an identifier or a word. */
  lemma BlankEnds(s: string, k: nat, b: seq<nat>, i: nat)
    requires IsSplit(s, k, SignaturePattern, b) && i in {1, 3, 5, 7, 9}
    ensures Ends(SignaturePattern[i], s, b[i + 1])
  {
    var P := SignaturePattern;
    if i == 1 || i == 7 {
      NextIsName(s, k, P, b, i);
    } else if i == 3 {
      NextIsWord(s, k, P, b, i, "(");
    } else if i == 5 {
      NextIsWord(s, k, P, b, i, "int");
    } else {
      NextIsWord(s, k, P, b, i, ")");
    }
  }

  /** In a match of `SignaturePattern` an identifier is followed by white space or,
      when that run is empty, by a parenthesis. */
  lemma NameEnds(s: string, k: nat, b: seq<nat>, i: nat)
    requires IsSplit(s, k, SignaturePattern, b) && i in {2, 8}
    ensures Ends(SignaturePattern[i], s, b[i + 1])
  {
    var P := SignaturePattern;
    NextIsBlank(s, k, P, b, i, false);
    if i == 2 {
      NextIsWord(s, k, P, b, i + 1, "(");
    } else {
      NextIsWord(s, k, P, b, i + 1, ")");
    }
    assert IsSpace(s[b[i + 1]]) ==> !IsIdChar(s[b[i + 1]]);
  }

  /** In a match of `SignaturePattern` every part is maximal: the character that
      follows a white-space run or an identifier can never extend it. */
  lemma SignatureSplitIsMaximal(s: string, k: nat, b: seq<nat>)
    requires IsSplit(s, k, SignaturePattern, b)
    ensures Maximal(s, SignaturePattern, b)
  {
    forall i | 0 <= i < |SignaturePattern| ensures Ends(SignaturePattern[i], s, b[i + 1]) {
      if i in {1, 3, 5, 7, 9} {
        BlankEnds(s, k, b, i);
      } else if i in {2, 8} {
        NameEnds(s, k, b, i);
      }
    }
  }

  /** Every match of the expression at `k` is the one the scanner reports there. */
  lemma MatchAtComplete(s: string, k: nat, b: seq<nat>)
    requires IsSplit(s, k, SignaturePattern, b)
    ensures MatchAt(s, k) == Some(b)
  {
    SignatureSplitIsMaximal(s, k, b);
    ScanComplete(s, k, SignaturePattern, b);
  }

  /** At any one position the expression matches in at most one way, so the
      captured names are determined by the start of the match. */
  lemma MatchUnique(s: string, k: nat, b1: seq<nat>, b2: seq<nat>)
    requires IsSplit(s, k, SignaturePattern, b1)
    requires IsSplit(s, k, SignaturePattern, b2)
    ensures b1 == b2
  {
    MatchAtComplete(s, k, b1);
    MatchAtComplete(s, k, b2);
  }

  // ---------------------------------------------------------------------------
  // What `Extract` returns

  /** A successful extraction reports the groups of a match, and no match
      starts further left. */
  lemma ExtractSound(code: string, sig: Signature)
    requires Extract(code) == Success(sig)
    ensures exists k: nat, b: seq<nat> ::
      && IsSplit(code, k, SignaturePattern, b)
      && Groups(code, b) == sig
      && NoMatchBefore(code, k)
  {
    var hit := FindFrom(code, 0).value;
    var k, b := hit.start, hit.bounds;
    forall j: nat, b': seq<nat> | j < k ensures !IsSplit(code, j, SignaturePattern, b') {
      if IsSplit(code, j, SignaturePattern, b') {
        MatchAtComplete(code, j, b');
        FindFromSkips(code, 0, j);
        assert false;
      }
    }
    assert IsSplit(code, k, SignaturePattern, b) && Groups(code, b) == sig;
  }

  /** The groups of the leftmost match are what `Extract` returns. */
  lemma ExtractComplete(code: string, k: nat, b: seq<nat>)
    requires IsSplit(code, k, SignaturePattern, b)
    requires NoMatchBefore(code, k)
    ensures Extract(code) == Success(Groups(code, b))
  {
    MatchAtComplete(code, k, b);
    if FindFrom(code, 0).None? {
      FindFromNone(code, 0, k);
      assert false;
    }
    var hit := FindFrom(code, 0).value;
    if hit.start < k {
      assert false;
    } else if hit.start > k {
      FindFromSkips(code, 0, k);
      assert false;
    }
  }

  /** Extraction fails exactly when no substring of the code matches; the
      error then carries the fixed message. */
  lemma ExtractFailsIffNoMatch(code: string)
    ensures Extract(code).Failure? <==> NoMatch(code)
    ensures Extract(code).Failure? ==> Extract(code).error == NoSignatureMessage
  {
    if Extract(code).Failure? {
      forall j: nat, b: seq<nat> ensures !IsSplit(code, j, SignaturePattern, b) {
        if IsSplit(code, j, SignaturePattern, b) {
          MatchAtComplete(code, j, b);
          FindFromNone(code, 0, j);
          assert false;
        }
      }
    } else {
      ExtractSound(code, Extract(code).value);
    }
  }

  /** A split of `s` is a split of any extension of `s`. */
  lemma SplitExtends(s: string, t: string, k: nat, pat: seq<Token>, b: seq<nat>)
    requires IsSplit(s, k, pat, b)
    ensures IsSplit(s + t, k, pat, b)
  {
    forall i | 0 <= i < |pat| ensures Fits(pat[i], (s + t)[b[i]..b[i + 1]]) {
      assert (s + t)[b[i]..b[i + 1]] == s[b[i]..b[i + 1]];
    }
  }

  /** Every cut of a split lies between its start and its end. */
  lemma SplitWithinBounds(s: string, k: nat, pat: seq<Token>, b: seq<nat>)
    requires IsSplit(s, k, pat, b)
    ensures forall i :: 0 <= i < |b| ==> k <= b[i] <= b[|pat|]
  {
    var n := |pat|;
    while n > 0
      invariant 0 <= n <= |pat|
      invariant forall i :: n <= i < |b| ==> b[i] <= b[|pat|]
    {
      assert b[n - 1] <= b[n];
      n := n - 1;
    }
    n := 0;
    while n < |pat|
      invariant 0 <= n <= |pat|
      invariant forall i :: 0 <= i <= n ==> k <= b[i]
    {
      assert b[n] <= b[n + 1];
      n := n + 1;
    }
  }

  /** A split of an extension of `s` that ends inside `s` is a split of `s`. */
  lemma SplitRestricts(s: string, t: string, k: nat, pat: seq<Token>, b: seq<nat>)
    requires IsSplit(s + t, k, pat, b) && b[|pat|] <= |s|
    ensures IsSplit(s, k, pat, b)
  {
    SplitWithinBounds(s + t, k, pat, b);
    forall i | 0 <= i < |pat| ensures Fits(pat[i], s[b[i]..b[i + 1]]) {
      assert (s + t)[b[i]..b[i + 1]] == s[b[i]..b[i + 1]];
    }
  }

  /** The part of a sorted split that holds position `p`. */
  lemma PartContaining(b: seq<nat>, n: nat, p: nat) returns (i: nat)
    requires n < |b| && b[0] <= p < b[n]
    ensures i < n && b[i] <= p < b[i + 1]
  {
    i := 0;
    while b[i + 1] <= p
      invariant i < n && b[i] <= p
      decreases n - i
    {
      i := i + 1;
    }
  }

  /** Tokens other than a word containing `)` never match a `)`. */
  lemma FitsNoClose(t: Token, part: string, q: nat)
    requires Fits(t, part) && q < |part|
    requires t.Word? ==> ')' !in t.text
    ensures part[q] != ')'
  {
    match t
    case Word(w) => assert part[q] in w;
    case Blank(_) =>
    case Name => if q > 0 { assert IsIdChar(part[q]); }
  }

  /** In a match of `SignaturePattern` the only `)` is the last character. */
  lemma OnlyCloseAtEnd(s: string, k: nat, b: seq<nat>, p: nat)
    requires IsSplit(s, k, SignaturePattern, b) && k <= p < b[10]
    ensures s[p] != ')'
  {
    var i := PartContaining(b, 10, p);
    PartFits(s, k, SignaturePattern, b, i);
    assert s[p] == s[b[i]..b[i + 1]][p - b[i]];
    FitsNoClose(SignaturePattern[i], s[b[i]..b[i + 1]], p - b[i]);
  }

  /** A match of `SignaturePattern` ends at the first `)` at or after its start. */
  lemma MatchEndsByFirstClose(s: string, j: nat, b: seq<nat>, p: nat)
    requires IsSplit(s, j, SignaturePattern, b) && j <= p < |s| && s[p] == ')'
    ensures b[11] <= p + 1
  {
    PartFits(s, j, SignaturePattern, b, 10);
    if p < b[10] {
      OnlyCloseAtEnd(s, j, b, p);
      assert false;
    }
  }

  /** No match in `code + rest` starts before the leftmost match `b` of `code`. */
  lemma NoEarlierMatchInExtension(code: string, rest: string, b: seq<nat>, j: nat, b': seq<nat>)
    requires |b| > 0 && FindFrom(code, 0) == Some(Hit(b[0], b)) && j < b[0]
    ensures !IsSplit(code + rest, j, SignaturePattern, b')
  {
    var s := code + rest;
    var k := b[0];
    assert IsSplit(code, k, SignaturePattern, b);
    PartFits(code, k, SignaturePattern, b, 10);
    SplitWithinBounds(code, k, SignaturePattern, b);
    var close := b[10];
    assert s[close] == code[close] == code[b[10]..b[11]][0] == ')';
    if IsSplit(s, j, SignaturePattern, b') {
      // Such a match would end by the `)` closing the first one, hence inside
      // the code, and the search would have found it first.
      MatchEndsByFirstClose(s, j, b', close);
      SplitRestricts(code, rest, j, SignaturePattern, b');
      MatchAtComplete(code, j, b');
      FindFromSkips(code, 0, j);
      assert false;
    }
  }

  /** The groups of a match read the same in any extension of the text. */
  lemma GroupsExtend(code: string, rest: string, b: seq<nat>)
    requires |b| == |SignaturePattern| + 1 && IsSplit(code, b[0], SignaturePattern, b)
    ensures IsSplit(code + rest, b[0], SignaturePattern, b)
    ensures Groups(code + rest, b) == Groups(code, b)
  {
    SplitExtends(code, rest, b[0], SignaturePattern, b);
    var s := code + rest;
    assert s[b[2]..b[3]] == code[b[2]..b[3]];
    assert s[b[8]..b[9]] == code[b[8]..b[9]];
  }

  /** Only the signature is inspected: once the code holds a match, anything
      appended after it (a method body, further methods) leaves the result unchanged. */
  lemma ExtractIgnoresSuffix(code: string, rest: string, sig: Signature)
    requires Extract(code) == Success(sig)
    ensures Extract(code + rest) == Success(sig)
  {
    var s := code + rest;
    var hit := FindFrom(code, 0).value;
    var k, b := hit.start, hit.bounds;
    SplitExtends(code, rest, k, SignaturePattern, b);
    forall j: nat, b': seq<nat> | j < k ensures !IsSplit(s, j, SignaturePattern, b') {
      NoEarlierMatchInExtension(code, rest, b, j, b');
    }
    ExtractComplete(s, k, b);
    GroupsExtend(code, rest, b);
  }
}
