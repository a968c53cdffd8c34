/**
  * When a folded line tells which frames were on the stack. Frame names have their semicolons escaped with a backslash
  * and are joined with semicolons, but backslashes are not escaped, so a line may be read in more than one way.
  */
module FoldedLines {
  import opened Prelude
  import opened CpuProfile

  /** Frame names from the outermost inward. */
  function Labels(sample: seq<Frame>): (labels: seq<string>)
    ensures |labels| == |sample|
  {
    seq(|sample|, i requires 0 <= i < |sample| => FoldedFrameName(sample[|sample| - 1 - i]))
  }

  function Join(labels: seq<string>): (line: string)
  {
    if labels == [] then "" else if |labels| == 1 then labels[0] else labels[0] + ";" + Join(labels[1..])
  }

  lemma {:induction false} JoinSnoc(labels: seq<string>, last: string)
    requires labels != []
    ensures Join(labels + [last]) == Join(labels) + ";" + last
  {
    if |labels| > 1 {
      JoinSnoc(labels[1..], last);
      assert (labels + [last])[1..] == labels[1..] + [last];
    } else {
      assert (labels + [last])[1..] == [last];
    }
  }

  lemma {:induction false} JoinedIsJoin(sample: seq<Frame>)
    ensures Joined(sample) == Join(Labels(sample))
  {
    hide FoldedFrameName;
    if |sample| > 1 {
      JoinedIsJoin(sample[1..]);
      JoinSnoc(Labels(sample[1..]), FoldedFrameName(sample[0]));
      assert Labels(sample) == Labels(sample[1..]) + [FoldedFrameName(sample[0])];
    }
  }

  // ----- Labels -----

  /** Every semicolon follows a backslash. These are exactly the strings that can be frame names. */
  predicate Protected(s: string)
  {
    forall i :: 0 <= i < |s| && s[i] == ';' ==> i > 0 && s[i - 1] == '\\'
  }

  predicate HasEscape(s: string)
  {
    exists i :: 0 <= i < |s| - 1 && s[i] == '\\' && s[i + 1] == ';'
  }

  predicate EndsInBackslash(s: string)
  {
    s != "" && s[|s| - 1] == '\\'
  }

  lemma {:induction false} ProtectedConcat(a: string, b: string)
    requires Protected(a) && Protected(b)
    ensures Protected(a + b)
  {
    var ab := a + b;
    forall i | 0 <= i < |ab| && ab[i] == ';' ensures i > 0 && ab[i - 1] == '\\' {
      if i >= |a| {
        assert b[i - |a|] == ';';
      }
    }
  }

  /** The escaped form of one character. */
  function EscapedChar(c: char): (r: string)
  {
    if c == ';' then "\\;" else [c]
  }

  lemma {:induction false} EscapedProtected(s: string)
    ensures Protected(Escaped(s))
  {
    if s != "" {
      EscapedProtected(s[1..]);
      ProtectedConcat(EscapedChar(s[0]), Escaped(s[1..]));
    }
  }

  lemma {:induction false} EscapedSemicolon(s: string)
    ensures ';' in Escaped(s) <==> ';' in s
  {
    if s != "" {
      EscapedSemicolon(s[1..]);
      assert s == [s[0]] + s[1..] && Escaped(s) == EscapedChar(s[0]) + Escaped(s[1..]);
      assert ';' in EscapedChar(s[0]) <==> s[0] == ';' by {
        assert EscapedChar(';')[1] == ';';
      }
    }
  }

  lemma {:induction false} EscapedEnd(s: string)
    ensures EndsInBackslash(Escaped(s)) <==> EndsInBackslash(s)
  {
    if |s| == 1 {
      assert s[1..] == "" && Escaped("") == "" && Escaped(s) == EscapedChar(s[0]) + "" == EscapedChar(s[0]);
    } else if |s| > 1 {
      EscapedEnd(s[1..]);
      EscapedSize(s[1..]);
      EndOfConcat(EscapedChar(s[0]), Escaped(s[1..]));
      EndOfConcat([s[0]], s[1..]);
      assert s == [s[0]] + s[1..];
    }
  }

  lemma {:induction false} EndOfConcat(a: string, b: string)
    requires b != ""
    ensures EndsInBackslash(a + b) <==> EndsInBackslash(b)
  {}

  lemma {:induction false} EscapedSize(s: string)
    requires s != ""
    ensures Escaped(s) != ""
  {}

  function Unescape(s: string): (r: string)
  {
    if s == "" then ""
    else if |s| >= 2 && s[0] == '\\' && s[1] == ';' then ";" + Unescape(s[2..])
    else [s[0]] + Unescape(s[1..])
  }

  lemma {:induction false} EscapeUnescape(s: string)
    requires Protected(s)
    ensures Escaped(Unescape(s)) == s
    decreases |s|
  {
    if s != "" {
      var two := |s| >= 2 && s[0] == '\\' && s[1] == ';';
      var tail := if two then s[2..] else s[1..];
      var head := if two then ';' else s[0];
      EscapeUnescape(tail);
      assert Unescape(s) == [head] + Unescape(tail);
      assert ([head] + Unescape(tail))[1..] == Unescape(tail);
      assert s == (if two then "\\;" else [s[0]]) + tail;
    }
  }

  lemma {:induction false} LabelProtected(f: Frame)
    ensures Protected(FoldedFrameName(f))
    ensures ';' in FoldedFrameName(f) <==> ';' in f.functionName || ';' in f.moduleName
    ensures EndsInBackslash(FoldedFrameName(f)) <==> f.moduleName == "" && EndsInBackslash(f.functionName)
  {
    hide Escaped, Protected, EndsInBackslash;
    EscapedProtected(f.functionName);
    EscapedProtected(f.moduleName);
    EscapedSemicolon(f.functionName);
    EscapedSemicolon(f.moduleName);
    EscapedEnd(f.functionName);
    var name, inner := Escaped(f.functionName), Escaped(f.moduleName);
    if f.moduleName == "" {
      PlainName(f);
    } else {
      ModuleLabel(inner);
      ProtectedConcat(name, " [" + inner + "]");
      EndOfConcat(name, " [" + inner + "]");
    }
  }

  lemma {:induction false} ModuleLabel(inner: string)
    requires Protected(inner)
    ensures Protected(" [" + inner + "]") && !EndsInBackslash(" [" + inner + "]")
    ensures ';' in " [" + inner + "]" <==> ';' in inner
  {
    ProtectedConcat(" [", inner);
    ProtectedConcat(" [" + inner, "]");
  }

  lemma {:induction false} PlainName(f: Frame)
    requires f.moduleName == ""
    ensures FoldedFrameName(f) == Escaped(f.functionName)
  {
    hide Escaped;
    assert Escaped(f.functionName) + "" == Escaped(f.functionName);
  }

  lemma {:induction false} LabelsProtected(sample: seq<Frame>)
    ensures forall i :: 0 <= i < |sample| ==> Protected(Labels(sample)[i])
  {
    hide FoldedFrameName, Protected;
    forall i | 0 <= i < |sample| ensures Protected(Labels(sample)[i]) {
      LabelProtected(sample[|sample| - 1 - i]);
    }
  }

  /** The sample whose frames, without modules, have these names. */
  function SampleOf(labels: seq<string>): (sample: seq<Frame>)
    ensures |sample| == |labels|
  {
    seq(|labels|, i requires 0 <= i < |labels| => Frame(Unescape(labels[|labels| - 1 - i]), "", 0))
  }

  lemma {:induction false} LabelsOfSample(labels: seq<string>)
    requires forall i :: 0 <= i < |labels| ==> Protected(labels[i])
    ensures Labels(SampleOf(labels)) == labels
  {
    hide Unescape, FoldedFrameName, Protected;
    forall i | 0 <= i < |labels| ensures Labels(SampleOf(labels))[i] == labels[i] {
      EscapeUnescape(labels[i]);
      PlainName(Frame(Unescape(labels[i]), "", 0));
    }
  }

  // ----- Lines that can be read in one way -----

  /** No semicolon in a label, and no backslash just before a separator. */
  predicate Clear(labels: seq<string>)
  {
    && (forall i :: 0 <= i < |labels| ==> ';' !in labels[i])
    && (forall i :: 0 <= i < |labels| - 1 ==> !EndsInBackslash(labels[i]))
  }

  lemma {:induction false} EscapeInConcat(a: string, b: string)
    ensures HasEscape(a + b) <==> HasEscape(a) || HasEscape(b) || (EndsInBackslash(a) && b != "" && b[0] == ';')
  {
    var ab := a + b;
    if HasEscape(a) {
      var i :| 0 <= i < |a| - 1 && a[i] == '\\' && a[i + 1] == ';';
      assert ab[i] == '\\' && ab[i + 1] == ';';
    }
    if HasEscape(b) {
      var i :| 0 <= i < |b| - 1 && b[i] == '\\' && b[i + 1] == ';';
      assert ab[|a| + i] == '\\' && ab[|a| + i + 1] == ';';
    }
    if EndsInBackslash(a) && b != "" && b[0] == ';' {
      assert ab[|a| - 1] == '\\' && ab[|a|] == ';';
    }
  }

  /** A clear line has no escape in it. */
  lemma {:induction false} ClearLine(labels: seq<string>)
    requires Clear(labels)
    ensures !HasEscape(Join(labels))
  {
    if |labels| > 1 {
      ClearLine(labels[1..]);
      EscapeInConcat(labels[0], ";" + Join(labels[1..]));
      EscapeInConcat(";", Join(labels[1..]));
      assert labels[0] + ";" + Join(labels[1..]) == labels[0] + (";" + Join(labels[1..]));
    }
  }

  lemma {:induction false} EscapeInLine(labels: seq<string>, i: nat)
    requires i < |labels| && HasEscape(labels[i])
    ensures HasEscape(Join(labels))
  {
    hide HasEscape;
    if |labels| > 1 {
      EscapeInConcat(labels[0], ";" + Join(labels[1..]));
      EscapeInConcat(";", Join(labels[1..]));
      assert labels[0] + ";" + Join(labels[1..]) == labels[0] + (";" + Join(labels[1..]));
      if i > 0 {
        EscapeInLine(labels[1..], i - 1);
      }
    }
  }

  predicate NoSemicolons(labels: seq<string>)
  {
    forall i :: 0 <= i < |labels| ==> ';' !in labels[i]
  }

  /** Without semicolons in the labels a line determines them. */
  lemma {:induction false} JoinInjective(a: seq<string>, b: seq<string>)
    requires a != [] && b != [] && NoSemicolons(a) && NoSemicolons(b) && Join(a) == Join(b)
    ensures a == b
  {
    FirstLabel(a);
    FirstLabel(b);
    assert |a[0]| == |b[0]|;
    assert a[0] == Join(a)[..|a[0]|] == Join(b)[..|b[0]|] == b[0];
    if |a| > 1 && |b| > 1 {
      assert Join(a)[|a[0]| + 1..] == Join(a[1..]) && Join(b)[|b[0]| + 1..] == Join(b[1..]);
      JoinInjective(a[1..], b[1..]);
      assert a == [a[0]] + a[1..] && b == [b[0]] + b[1..];
    }
  }

  lemma {:induction false} FirstLabel(a: seq<string>)
    requires a != [] && NoSemicolons(a)
    ensures |a[0]| <= |Join(a)| && Join(a)[..|a[0]|] == a[0] && ';' !in a[0]
    ensures if |a| == 1 then |Join(a)| == |a[0]| else |Join(a)| > |a[0]| && Join(a)[|a[0]|] == ';'
  {}

  lemma {:induction false} ClearIsUnique(labels: seq<string>, others: seq<string>)
    requires labels != [] && others != [] && Clear(labels) && Join(labels) == Join(others)
    requires forall i :: 0 <= i < |others| ==> Protected(others[i])
    ensures others == labels
  {
    hide Join;
    ClearLine(labels);
    forall i | 0 <= i < |others| ensures ';' !in others[i] {
      if HasEscape(others[i]) {
        EscapeInLine(others, i);
      }
      ProtectedPlain(others[i]);
    }
    JoinInjective(labels, others);
  }

  lemma {:induction false} ProtectedPlain(s: string)
    requires Protected(s)
    ensures HasEscape(s) <==> ';' in s
  {
    if ';' in s {
      var i :| 0 <= i < |s| && s[i] == ';';
      assert s[i - 1] == '\\' && s[i - 1 + 1] == ';';
    }
  }

  // ----- Lines that can be read in two ways -----

  function Merge(labels: seq<string>, i: nat): (r: seq<string>)
    requires i < |labels| - 1
  {
    labels[..i] + [labels[i] + ";" + labels[i + 1]] + labels[i + 2..]
  }

  /** Joining two neighbours beforehand does not show in the line. */
  lemma {:induction false} JoinMerge(labels: seq<string>, i: nat)
    requires i < |labels| - 1
    ensures Join(Merge(labels, i)) == Join(labels)
    decreases i
  {
    var merged := Merge(labels, i);
    if i == 0 {
      assert merged[1..] == labels[2..] == labels[1..][1..] && labels[1..][0] == labels[1];
      if |labels| > 2 {
        var rest := Join(labels[2..]);
        assert labels[0] + ";" + labels[1] + ";" + rest == labels[0] + ";" + (labels[1] + ";" + rest);
      }
    } else {
      JoinMerge(labels[1..], i - 1);
      assert merged[1..] == Merge(labels[1..], i - 1) by {
        var tail := labels[1..];
        assert tail[..i - 1] == labels[1..i] && tail[i - 1] == labels[i] && tail[i] == labels[i + 1];
        assert labels[1..][i + 1..] == labels[i + 2..] && labels[..i][1..] == labels[1..i];
      }
      assert merged[0] == labels[0];
    }
  }

  /** A line that is not clear has another reading. */
  lemma {:induction false} OtherReading(labels: seq<string>) returns (others: seq<string>)
    requires labels != [] && !Clear(labels) && forall i :: 0 <= i < |labels| ==> Protected(labels[i])
    ensures others != [] && others != labels && Join(others) == Join(labels)
    ensures forall i :: 0 <= i < |others| ==> Protected(others[i])
  {
    hide Join, Protected;
    if NoSemicolons(labels) {
      var i :| 0 <= i < |labels| - 1 && EndsInBackslash(labels[i]);
      others := Merge(labels, i);
      JoinMerge(labels, i);
      MergedProtected(labels[i], labels[i + 1]);
    } else {
      var i :| 0 <= i < |labels| && ';' in labels[i];
      var k :| 0 <= k < |labels[i]| && labels[i][k] == ';';
      others := SplitReading(labels, i, k);
    }
  }

  lemma {:induction false} SplitReading(labels: seq<string>, i: nat, k: nat) returns (others: seq<string>)
    requires i < |labels| && k < |labels[i]| && labels[i][k] == ';'
    requires forall x :: 0 <= x < |labels| ==> Protected(labels[x])
    ensures |others| == |labels| + 1 && Join(others) == Join(labels)
    ensures forall x :: 0 <= x < |others| ==> Protected(others[x])
  {
    hide Join, Protected;
    var left, right := labels[i][..k], labels[i][k + 1..];
    others := labels[..i] + [left, right] + labels[i + 1..];
    SplitProtected(labels[i], k);
    assert left + ";" + right == labels[i];
    assert others[..i] == labels[..i] && others[i + 2..] == labels[i + 1..];
    assert Merge(others, i) == labels;
    JoinMerge(others, i);
  }

  lemma {:induction false} MergedProtected(a: string, b: string)
    requires ';' !in a && ';' !in b && EndsInBackslash(a)
    ensures Protected(a + ";" + b)
  {}

  lemma {:induction false} SplitProtected(s: string, k: nat)
    requires Protected(s) && k < |s| && s[k] == ';'
    ensures Protected(s[..k]) && Protected(s[k + 1..])
  {
    var right := s[k + 1..];
    forall i | 0 <= i < |right| && right[i] == ';' ensures i > 0 && right[i - 1] == '\\' {
      assert s[k + 1 + i] == ';';
    }
  }

  // ----- Which stacks a line identifies -----

  /** No other stack of names folds to the same line. */
  ghost predicate Identified(sample: seq<Frame>)
  {
    forall t :: FoldedStack(t) == FoldedStack(sample) ==> Labels(t) == Labels(sample)
  }

  /** No name contains a semicolon, and only the innermost frame's label may end in a backslash. */
  predicate ClearNames(sample: seq<Frame>)
  {
    && (forall i :: 0 <= i < |sample| ==> ';' !in sample[i].functionName && ';' !in sample[i].moduleName)
    && (forall i :: 0 < i < |sample| ==> !(sample[i].moduleName == "" && EndsInBackslash(sample[i].functionName)))
  }

  lemma {:induction false} ClearLabels(sample: seq<Frame>)
    ensures Clear(Labels(sample)) <==> ClearNames(sample)
  {
    hide FoldedFrameName, EndsInBackslash;
    var labels, n := Labels(sample), |sample|;
    if Clear(labels) {
      forall i | 0 <= i < n
        ensures ';' !in sample[i].functionName && ';' !in sample[i].moduleName
        ensures i > 0 ==> !(sample[i].moduleName == "" && EndsInBackslash(sample[i].functionName))
      {
        LabelProtected(sample[i]);
        assert labels[n - 1 - i] == FoldedFrameName(sample[i]);
      }
    }
    if ClearNames(sample) {
      forall i | 0 <= i < n
        ensures ';' !in labels[i] && (i < n - 1 ==> !EndsInBackslash(labels[i]))
      {
        LabelProtected(sample[n - 1 - i]);
      }
    }
  }

  /** A folded line identifies the frame names of its sample exactly when the sample is not empty, is not the single
      frame `(idle)`, no name contains a semicolon, and no frame but the innermost has a label ending in a backslash. */
  lemma {:induction false} FoldedExactly(sample: seq<Frame>)
    ensures Identified(sample) <==> sample != [] && Labels(sample) != ["(idle)"] && ClearNames(sample)
  {
    hide Labels, Clear, ClearNames, Join, Joined, Protected;
    ClearLabels(sample);
    LabelsProtected(sample);
    if sample == [] || Labels(sample) == ["(idle)"] {
      IdleCollides(sample);
    } else if !Clear(Labels(sample)) {
      var others := OtherReading(Labels(sample));
      LabelsOfSample(others);
      JoinedIsJoin(sample);
      JoinedIsJoin(SampleOf(others));
      assert FoldedStack(SampleOf(others)) == FoldedStack(sample);
    } else {
      forall t | FoldedStack(t) == FoldedStack(sample)
        ensures Labels(t) == Labels(sample)
      {
        ClearStack(sample, t);
      }
    }
  }

  lemma {:induction false} ClearStack(sample: seq<Frame>, t: seq<Frame>)
    requires sample != [] && Labels(sample) != ["(idle)"] && Clear(Labels(sample))
    requires FoldedStack(t) == FoldedStack(sample)
    ensures Labels(t) == Labels(sample)
  {
    hide Labels, Clear, Join, Joined;
    JoinedIsJoin(sample);
    JoinedIsJoin(t);
    LabelsProtected(t);
    var idle := "(idle)";
    var others := if t == [] then [idle] else Labels(t);
    JoinOne(idle);
    assert Protected(idle);
    ClearIsUnique(Labels(sample), others);
  }

  lemma {:induction false} JoinOne(last: string)
    ensures Join([last]) == last
  {}

  lemma {:induction false} IdleCollides(sample: seq<Frame>)
    requires sample == [] || Labels(sample) == ["(idle)"]
    ensures !Identified(sample)
  {
    var idle := [Frame("(idle)", "", 0)];
    IdleLabel();
    JoinedIsJoin(sample);
    JoinedIsJoin(idle);
    JoinOne("(idle)");
    var other := if sample == [] then idle else [];
    assert FoldedStack(other) == FoldedStack(sample) && |Labels(other)| != |Labels(sample)|;
  }

  lemma {:induction false} IdleLabel()
    ensures Labels([Frame("(idle)", "", 0)]) == ["(idle)"]
  {
    hide FoldedFrameName, Escaped;
    PlainEscape("(idle)");
    PlainName(Frame("(idle)", "", 0));
  }

  lemma {:induction false} PlainEscape(s: string)
    requires ';' !in s
    ensures Escaped(s) == s
  {
    if s != "" {
      PlainEscape(s[1..]);
    }
  }

  /** A frame as it is written when nothing needs escaping: the function, and the module in brackets if there is one. */
  function PlainText(f: Frame): (text: string)
  {
    if |f.moduleName| == 0 then f.functionName else f.functionName + [' ', '['] + f.moduleName + [']']
  }

  /** The line of a stack without semicolons in its names: the frames from the outermost inward, with semicolons
      between them. */
  lemma {:induction false} FoldedText(sample: seq<Frame>)
    requires forall i :: 0 <= i < |sample| ==> ';' !in sample[i].functionName && ';' !in sample[i].moduleName
    ensures FoldedStack(sample)
            == if sample == [] then "(idle)"
               else Join(seq(|sample|, i requires 0 <= i < |sample| => PlainText(sample[|sample| - 1 - i])))
  {
    hide Escaped, Joined, Join;
    JoinedIsJoin(sample);
    forall i | 0 <= i < |sample|
      ensures FoldedFrameName(sample[i]) == PlainText(sample[i])
    {
      PlainEscape(sample[i].functionName);
      PlainEscape(sample[i].moduleName);
    }
    assert Labels(sample) == seq(|sample|, i requires 0 <= i < |sample| => PlainText(sample[|sample| - 1 - i]));
  }

  /** The frame `a;b` alone, and `a\` calling `b`, fold to the same line. */
  lemma {:induction false} FoldedCollision()
    ensures FoldedStack([Frame("a;b", "", 0)]) == FoldedStack([Frame("b", "", 0), Frame("a\\", "", 0)])
  {
    var one, two := [Frame("a;b", "", 0)], [Frame("b", "", 0), Frame("a\\", "", 0)];
    PlainEscape("b");
    PlainEscape("a\\");
    assert "a;b"[1..] == ";b" && ";b"[1..] == "b";
    assert Escaped(";b") == "\\;" + Escaped("b") && Escaped("a;b") == "a" + Escaped(";b");
    assert two[1..] == [Frame("a\\", "", 0)];
    assert Joined(two) == Joined(two[1..]) + ";" + FoldedFrameName(two[0]);
  }
}
