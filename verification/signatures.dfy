/**
  Signatures written out: the text the expression matches, assembled from one
  part per token, and the round trip from that text back to the two
  identifiers through `Extract`.
 */
module Signatures {
  import opened Wrappers
  import opened Chars
  import opened Extractor

  /** The parts written one after the other. */
  function Join(parts: seq<string>): string {
    if parts == [] then "" else parts[0] + Join(parts[1..])
  }

  /** The positions where the parts of `Join(parts)` begin, and its length. */
  function Cuts(parts: seq<string>): (b: seq<nat>)
    ensures |b| == |parts| + 1
    ensures forall i :: 0 <= i <= |parts| ==> b[i] == |Join(parts[..i])|
  {
    seq(|parts| + 1, i requires 0 <= i <= |parts| => |Join(parts[..i])|)
  }

  /** Joining distributes over concatenation of the part lists. */
  lemma {:induction false} JoinAppend(p: seq<string>, q: seq<string>)
    ensures Join(p + q) == Join(p) + Join(q)
  {
    if p == [] {
      assert p + q == q;
    } else {
      assert (p + q)[1..] == p[1..] + q;
      JoinAppend(p[1..], q);
    }
  }

  /** The `i`-th part sits in the joined text right after the parts before it. */
  lemma JoinPart(parts: seq<string>, i: nat)
    requires i < |parts|
    ensures Join(parts[..i + 1]) == Join(parts[..i]) + parts[i]
    ensures |Join(parts[..i + 1])| <= |Join(parts)|
    ensures Join(parts)[|Join(parts[..i])|..|Join(parts[..i + 1])|] == parts[i]
  {
    assert parts[..i + 1] == parts[..i] + [parts[i]];
    JoinAppend(parts[..i], [parts[i]]);
    assert Join([parts[i]]) == parts[i] + Join([]);
    assert parts == parts[..i + 1] + parts[i + 1..];
    JoinAppend(parts[..i + 1], parts[i + 1..]);
  }

  /** `Cuts` marks each part's place in the joined text. */
  lemma JoinCut(parts: seq<string>, i: nat)
    requires i < |parts|
    ensures Cuts(parts)[i] <= Cuts(parts)[i + 1] <= |Join(parts)|
    ensures Join(parts)[Cuts(parts)[i]..Cuts(parts)[i + 1]] == parts[i]
  {
    JoinPart(parts, i);
  }

  /** Parts that each fit their token join into text the whole expression matches
      from position 0, and the groups are the name and parameter parts. */
  lemma JoinSplit(parts: seq<string>)
    requires |parts| == |SignaturePattern|
    requires forall i :: 0 <= i < |parts| ==> Fits(SignaturePattern[i], parts[i])
    ensures IsSplit(Join(parts), 0, SignaturePattern, Cuts(parts))
    ensures Groups(Join(parts), Cuts(parts)) == Signature(parts[NameGroup], parts[ParamGroup])
  {
    assert parts[..|parts|] == parts;
    forall i: nat | i <= |parts|
      ensures Cuts(parts)[i] <= |Join(parts)|
    {
      if i < |parts| {
        JoinCut(parts, i);
      }
    }
    forall i: nat | i < |parts|
      ensures Cuts(parts)[i] <= Cuts(parts)[i + 1]
      ensures Join(parts)[Cuts(parts)[i]..Cuts(parts)[i + 1]] == parts[i]
    {
      JoinCut(parts, i);
    }
    assert parts[..0] == [];
  }

  /** A match at position 0 is the leftmost, whatever follows it. */
  lemma ExtractOfJoin(parts: seq<string>, rest: string)
    requires |parts| == |SignaturePattern|
    requires forall i :: 0 <= i < |parts| ==> Fits(SignaturePattern[i], parts[i])
    ensures Extract(Join(parts) + rest) == Success(Signature(parts[NameGroup], parts[ParamGroup]))
  {
    var b := Cuts(parts);
    JoinSplit(parts);
    GroupsExtend(Join(parts), rest, b);
    ExtractComplete(Join(parts) + rest, 0, b);
  }

  /** The parts of a written signature: `int`, white space `w1`, the name, `w2`,
      `(`, `w3`, `int`, `w4`, the parameter, `w5` and `)`. */
  function SignatureParts(name: string, param: string, w1: string, w2: string, w3: string, w4: string, w5: string)
    : seq<string>
  {
    ["int", w1, name, w2, "(", w3, "int", w4, param, w5, ")"]
  }

  /** Round trip: code that starts with a signature written with any white space
      the expression admits yields that signature's name and parameter, whatever
      follows it. */
  lemma ExtractRoundTrip(name: string, param: string, w1: string, w2: string, w3: string, w4: string, w5: string,
                         rest: string)
    requires IsIdentifier(name) && IsIdentifier(param)
    requires AllSpaces(w1) && AllSpaces(w2) && AllSpaces(w3) && AllSpaces(w4) && AllSpaces(w5)
    requires |w1| > 0 && |w4| > 0
    ensures Extract(Join(SignatureParts(name, param, w1, w2, w3, w4, w5)) + rest) == Success(Signature(name, param))
  {
    ExtractOfJoin(SignatureParts(name, param, w1, w2, w3, w4, w5), rest);
  }

  /** `b` with every position moved `d` places to the right. */
  function Shift(b: seq<nat>, d: nat): (r: seq<nat>)
    ensures |r| == |b| && forall i :: 0 <= i < |b| ==> r[i] == b[i] + d
  {
    seq(|b|, i requires 0 <= i < |b| => b[i] + d)
  }

  /** A slice of `s` is the same slice, shifted, of `pre + s`. */
  lemma SliceShift(pre: string, s: string, x: nat, y: nat)
    requires x <= y <= |s|
    ensures (pre + s)[|pre| + x..|pre| + y] == s[x..y]
  {
    assert forall q :: 0 <= q < y - x ==> (pre + s)[|pre| + x..|pre| + y][q] == s[x..y][q];
  }

  /** A match inside `s` is a match, at the shifted place, inside `pre + s`,
      with the same groups. */
  lemma SplitShift(pre: string, s: string, k: nat, b: seq<nat>)
    requires IsSplit(s, k, SignaturePattern, b)
    ensures IsSplit(pre + s, |pre| + k, SignaturePattern, Shift(b, |pre|))
    ensures Groups(pre + s, Shift(b, |pre|)) == Groups(s, b)
  {
    var c := Shift(b, |pre|);
    forall i | 0 <= i < |SignaturePattern|
      ensures Fits(SignaturePattern[i], (pre + s)[c[i]..c[i + 1]])
    {
      SliceShift(pre, s, b[i], b[i + 1]);
    }
    GroupsShift(pre, s, b);
  }

  /** Shifting a match keeps its groups. */
  lemma GroupsShift(pre: string, s: string, b: seq<nat>)
    requires |b| == |SignaturePattern| + 1 && IsSplit(s, b[0], SignaturePattern, b)
    requires IsSplit(pre + s, |pre| + b[0], SignaturePattern, Shift(b, |pre|))
    ensures Groups(pre + s, Shift(b, |pre|)) == Groups(s, b)
  {
    SliceShift(pre, s, b[NameGroup], b[NameGroup + 1]);
    SliceShift(pre, s, b[ParamGroup], b[ParamGroup + 1]);
  }

  /** A match at position 0 of `s` is what extraction finds in `pre + s` when no
      match starts inside `pre`. */
  lemma ExtractShifted(pre: string, s: string, b: seq<nat>)
    requires IsSplit(s, 0, SignaturePattern, b)
    requires NoMatchBefore(pre + s, |pre|)
    ensures Extract(pre + s) == Success(Groups(s, b))
  {
    SplitShift(pre, s, 0, b);
    ExtractComplete(pre + s, |pre|, Shift(b, |pre|));
  }

  /** Whatever text precedes a written signature, extraction yields that
      signature's identifiers as long as no match starts inside the preceding text. */
  lemma ExtractAfterPrefix(pre: string, parts: seq<string>, rest: string)
    requires |parts| == |SignaturePattern|
    requires forall i :: 0 <= i < |parts| ==> Fits(SignaturePattern[i], parts[i])
    requires NoMatchBefore(pre + (Join(parts) + rest), |pre|)
    ensures Extract(pre + (Join(parts) + rest)) == Success(Signature(parts[NameGroup], parts[ParamGroup]))
  {
    var b := Cuts(parts);
    JoinSplit(parts);
    GroupsExtend(Join(parts), rest, b);
    ExtractShifted(pre, Join(parts) + rest, b);
  }

  /** No word boundary is required before `int`: in `print NAME(int PARAM)` the
      letters `int` of `print` start the match, so the method is taken to be `NAME`. */
  lemma PrintIsNotAType(name: string, param: string, rest: string)
    requires IsIdentifier(name) && IsIdentifier(param)
    ensures Extract("pr" + (Join(SignatureParts(name, param, " ", "", "", " ", "")) + rest))
      == Success(Signature(name, param))
  {
    var parts := SignatureParts(name, param, " ", "", "", " ", "");
    var code := "pr" + (Join(parts) + rest);
    assert Join(parts) == "int" + Join(parts[1..]);
    assert code[2] == 'i' && code[3] == 'n';
    forall j: nat, b: seq<nat> | j < 2 ensures !IsSplit(code, j, SignaturePattern, b) {
      if IsSplit(code, j, SignaturePattern, b) {
        MatchStartsWithInt(code, j, b);
        assert false;
      }
    }
    ExtractAfterPrefix("pr", parts, rest);
  }

  /** Every match begins with the letters `int`. */
  lemma MatchStartsWithInt(s: string, j: nat, b: seq<nat>)
    requires IsSplit(s, j, SignaturePattern, b)
    ensures j + 3 <= |s| && s[j..j + 3] == "int"
    ensures s[j] == 'i' && s[j + 1] == 'n' && s[j + 2] == 't'
  {
    assert s[b[0]..b[1]] == "int";
  }

  /** Code without the letter `t` holds no signature. */
  lemma NoTNoSignature(s: string)
    requires 't' !in s
    ensures Extract(s).Failure?
  {
    forall j: nat, b: seq<nat> ensures !IsSplit(s, j, SignaturePattern, b) {
      if IsSplit(s, j, SignaturePattern, b) {
        MatchStartsWithInt(s, j, b);
        assert false;
      }
    }
    ExtractFailsIffNoMatch(s);
  }

  /** `void noop()` is rejected with the fixed message. */
  lemma Noop()
    ensures Extract("void noop()") == Failure(NoSignatureMessage)
  {
    NoTNoSignature("void noop()");
  }
}
