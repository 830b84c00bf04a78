/** Splitting a line of probe output into whitespace-separated fields, as
    Go's strings.Fields does: runs of white space separate fields, and leading
    or trailing white space produces no empty field. */
module Tokenize {

  /** Go's unicode.IsSpace: the Latin-1 white space characters, and beyond
      Latin-1 the characters with the Unicode White_Space property. */
  predicate IsSpace(c: char) {
    var n := c as int;
    || (0x09 <= n <= 0x0D)
    || n == 0x20
    || n == 0x85
    || n == 0xA0
    || n == 0x1680
    || (0x2000 <= n <= 0x200A)
    || n == 0x2028
    || n == 0x2029
    || n == 0x202F
    || n == 0x205F
    || n == 0x3000
  }

  predicate NoSpace(s: string) {
    forall i :: 0 <= i < |s| ==> !IsSpace(s[i])
  }

  predicate AllSpace(s: string) {
    forall i :: 0 <= i < |s| ==> IsSpace(s[i])
  }

  /** A field as strings.Fields returns it: non-empty, and free of white space. */
  predicate IsField(w: string) {
    w != [] && NoSpace(w)
  }

  /** The suffix of `s` that starts at its first non-space character. */
  function SkipSpaces(s: string): (t: string)
    ensures |t| <= |s|
    ensures t == [] || !IsSpace(t[0])
  {
    if s != [] && IsSpace(s[0]) then SkipSpaces(s[1..]) else s
  }

  /** The length of the longest white-space-free prefix of `s`. */
  function WordLength(s: string): (n: nat)
    ensures n <= |s|
    ensures NoSpace(s[..n])
    ensures n < |s| ==> IsSpace(s[n])
  {
    if s == [] || IsSpace(s[0]) then 0 else 1 + WordLength(s[1..])
  }

  /** The fields of `s`, in order. */
  function Fields(s: string): (r: seq<string>)
    ensures forall i :: 0 <= i < |r| ==> IsField(r[i])
    decreases |s|
  {
    var t := SkipSpaces(s);
    if t == [] then
      []
    else
      var n := WordLength(t);
      [t[..n]] + Fields(t[n..])
  }

  /** The fields `ws` laid out in one line, separated by `sep`. */
  function JoinWith(ws: seq<string>, sep: string): string {
    if ws == [] then ""
    else if |ws| == 1 then ws[0]
    else ws[0] + sep + JoinWith(ws[1..], sep)
  }

  lemma {:induction false} SkipLeadingSpace(sp: string, s: string)
    requires AllSpace(sp)
    ensures SkipSpaces(sp + s) == SkipSpaces(s)
    decreases |sp|
  {
    if sp != [] {
      assert (sp + s)[1..] == sp[1..] + s;
      SkipLeadingSpace(sp[1..], s);
    } else {
      assert sp + s == s;
    }
  }

  lemma {:induction false} WordLengthOfField(w: string, rest: string)
    requires NoSpace(w)
    requires rest == [] || IsSpace(rest[0])
    ensures WordLength(w + rest) == |w|
    decreases |w|
  {
    if w == [] {
      assert w + rest == rest;
    } else {
      assert (w + rest)[1..] == w[1..] + rest;
      WordLengthOfField(w[1..], rest);
    }
  }

  /** Leading white space does not change the fields of a line. */
  lemma LeadingSpaceIgnored(sp: string, s: string)
    requires AllSpace(sp)
    ensures Fields(sp + s) == Fields(s)
  {
    SkipLeadingSpace(sp, s);
  }

  /** A field followed by white space (or by nothing) is the first field. */
  lemma FieldsOfFieldThen(w: string, rest: string)
    requires IsField(w)
    requires rest == [] || IsSpace(rest[0])
    ensures Fields(w + rest) == [w] + Fields(rest)
  {
    var line := w + rest;
    assert SkipSpaces(line) == line by {
      assert line[0] == w[0];
    }
    WordLengthOfField(w, rest);
    assert line[..|w|] == w;
    assert line[|w|..] == rest;
  }

  /** Splitting inverts joining: laying out fields with any non-empty
      white-space separator and splitting the line again gives back exactly
      those fields. */
  lemma {:induction false} FieldsOfJoin(ws: seq<string>, sep: string)
    requires forall i :: 0 <= i < |ws| ==> IsField(ws[i])
    requires sep != [] && AllSpace(sep)
    ensures Fields(JoinWith(ws, sep)) == ws
    decreases |ws|
  {
    if ws == [] {
    } else if |ws| == 1 {
      FieldsOfFieldThen(ws[0], []);
      assert ws[0] + [] == ws[0];
    } else {
      var w, more := ws[0], ws[1..];
      var tail := JoinWith(more, sep);
      var rest := sep + tail;
      assert JoinWith(ws, sep) == w + rest;
      assert IsSpace(rest[0]) by {
        assert rest[0] == sep[0];
      }
      FieldsOfFieldThen(w, rest);
      LeadingSpaceIgnored(sep, tail);
      assert forall i :: 0 <= i < |more| ==> IsField(more[i]) by {
        forall i | 0 <= i < |more| ensures IsField(more[i]) {
          assert more[i] == ws[i + 1];
        }
      }
      FieldsOfJoin(more, sep);
      calc {
        Fields(JoinWith(ws, sep));
        Fields(w + rest);
        [w] + Fields(rest);
        [w] + Fields(tail);
        [w] + more;
        ws;
      }
    }
  }
}
