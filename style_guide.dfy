/** The class-name joiner of the style guide (src/lib/styleGuide.ts):
    empty pieces are dropped and the rest joined by single spaces. */
module StyleGuide {
  import opened Common

  /** `classes.filter(Boolean)`: the empty string is the only falsy string. */
  function NonEmpty(classes: seq<string>): (r: seq<string>)
    ensures forall c :: c in r ==> c in classes && c != ""
  {
    Filter(classes, (c: string) => c != "")
  }

  /** `parts.join(' ')`. */
  function Join(parts: seq<string>): string
  {
    if parts == [] then ""
    else if |parts| == 1 then parts[0]
    else parts[0] + " " + Join(parts[1..])
  }

  /** `createStyleClass(...classes)`. */
  function CreateStyleClass(classes: seq<string>): string
  {
    Join(NonEmpty(classes))
  }

  /** No arguments, or only empty ones, give the empty class string. */
  lemma EmptyPiecesGiveEmpty(classes: seq<string>)
    requires forall i :: 0 <= i < |classes| ==> classes[i] == ""
    ensures CreateStyleClass(classes) == ""
  {
    var r := NonEmpty(classes);
    assert forall k :: 0 <= k < |r| ==> r[k] in r;
  }

  /** A single argument comes back unchanged. */
  lemma SingleClassUnchanged(c: string)
    ensures CreateStyleClass([c]) == c
  {
    assert [c][1..] == [];
  }

  /** Joining non-empty pieces gives the empty string only for no pieces. */
  lemma {:induction false} JoinEmpty(parts: seq<string>)
    requires forall c :: c in parts ==> c != ""
    ensures Join(parts) == "" <==> parts == []
  {
    if |parts| > 1 {
      assert parts[0] in parts;
      assert |Join(parts)| >= |parts[0]| + 1;
    } else if |parts| == 1 {
      assert parts[0] in parts;
    }
  }

  lemma {:induction false} JoinAppend(x: seq<string>, y: seq<string>)
    requires x != [] && y != []
    ensures Join(x + y) == Join(x) + " " + Join(y)
  {
    if |x| == 1 {
      assert (x + y)[1..] == y;
    } else {
      assert (x + y)[1..] == x[1..] + y;
      JoinAppend(x[1..], y);
    }
  }

  /** Class strings compose: the pieces of `a` then those of `b`, one space
      between the two halves when both are non-empty. */
  lemma CreateStyleClassAppend(a: seq<string>, b: seq<string>)
    ensures CreateStyleClass(a + b) ==
      if CreateStyleClass(a) == "" then CreateStyleClass(b)
      else if CreateStyleClass(b) == "" then CreateStyleClass(a)
      else CreateStyleClass(a) + " " + CreateStyleClass(b)
  {
    var p := (c: string) => c != "";
    FilterAppend(a, b, p);
    JoinEmpty(NonEmpty(a));
    JoinEmpty(NonEmpty(b));
    if NonEmpty(a) == [] {
      assert NonEmpty(a + b) == NonEmpty(b);
    } else if NonEmpty(b) == [] {
      assert NonEmpty(a + b) == NonEmpty(a);
    } else {
      JoinAppend(NonEmpty(a), NonEmpty(b));
    }
  }

  /** `s.split(' ')`: the pieces between single spaces, `[""]` for `""`. */
  function SplitSpaces(s: string): (r: seq<string>)
    ensures |r| >= 1
  {
    if s == [] then [""]
    else if s[0] == ' ' then [""] + SplitSpaces(s[1..])
    else
      var rest := SplitSpaces(s[1..]);
      [[s[0]] + rest[0]] + rest[1..]
  }

  lemma {:induction false} SplitWord(w: string, rest: string)
    requires ' ' !in w
    ensures SplitSpaces(w + rest) == [w + SplitSpaces(rest)[0]] + SplitSpaces(rest)[1..]
  {
    if w != [] {
      assert (w + rest)[1..] == w[1..] + rest;
      SplitWord(w[1..], rest);
      assert [w[0]] + (w[1..] + SplitSpaces(rest)[0]) == w + SplitSpaces(rest)[0];
    } else {
      var r := SplitSpaces(rest);
      assert w + rest == rest;
      assert w + r[0] == r[0];
      assert [r[0]] + r[1..] == r;
    }
  }

  /** Splitting a join of space-free pieces at its spaces gives the pieces
      back: the separator is exactly one space and the order is kept. */
  lemma {:induction false} SplitJoin(parts: seq<string>)
    requires parts != []
    requires forall i :: 0 <= i < |parts| ==> ' ' !in parts[i]
    ensures SplitSpaces(Join(parts)) == parts
  {
    if |parts| == 1 {
      SplitWord(parts[0], "");
      assert parts[0] + "" == parts[0];
    } else {
      SplitJoin(parts[1..]);
      var rest := " " + Join(parts[1..]);
      SplitWord(parts[0], rest);
      assert parts[0] + " " + Join(parts[1..]) == parts[0] + rest;
      assert rest[1..] == Join(parts[1..]);
      assert parts[0] + "" == parts[0];
    }
  }

  /** For space-free class names, the class string splits back into exactly
      the non-empty arguments in argument order. */
  lemma CreateStyleClassSplits(classes: seq<string>)
    requires forall i :: 0 <= i < |classes| ==> ' ' !in classes[i]
    requires exists i :: 0 <= i < |classes| && classes[i] != ""
    ensures SplitSpaces(CreateStyleClass(classes)) == NonEmpty(classes)
  {
    var i :| 0 <= i < |classes| && classes[i] != "";
    FilterComplete(classes, (c: string) => c != "", classes[i]);
    var parts := NonEmpty(classes);
    forall k | 0 <= k < |parts|
      ensures ' ' !in parts[k]
    {
      assert parts[k] in parts;
    }
    SplitJoin(parts);
  }
}
