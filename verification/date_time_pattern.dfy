/**
 * The anchored regular expression that validates MIN_AUTH_TIME,
 * ^\d{4}-\d{2}-\d{2}T\d{2}:\d{2}:\d{2}\+\d{2}:\d{2}$, written as a list of
 * atoms, together with a position-by-position description of the strings
 * it accepts.
 */
module DateTimePattern {
  import opened Text

  /** One atom of the expression: exactly `count` ASCII digits, or one literal character. */
  datatype Atom = Digits(count: nat) | Literal(c: char)

  /** \d{4}-\d{2}-\d{2} */
  const DatePattern: seq<Atom> := [Digits(4), Literal('-'), Digits(2), Literal('-'), Digits(2)]
  /** \d{2}:\d{2}:\d{2} */
  const ClockPattern: seq<Atom> := [Digits(2), Literal(':'), Digits(2), Literal(':'), Digits(2)]
  /** \+\d{2}:\d{2}: only a positive offset is written into the expression. */
  const OffsetPattern: seq<Atom> := [Literal('+'), Digits(2), Literal(':'), Digits(2)]

  const MinAuthTimePattern: seq<Atom> := DatePattern + [Literal('T')] + ClockPattern + OffsetPattern

  /** The accepted layout: 'D' stands for one ASCII digit, every other character for itself. */
  const MinAuthTimeShape := "DDDD-DD-DDTDD:DD:DD+DD:DD"

  /** Whole-string match of an atom list; the anchors ^ and $ make it consume all of `s`. */
  predicate Matches(pattern: seq<Atom>, s: string)
    decreases |pattern|
  {
    if |pattern| == 0 then |s| == 0
    else match pattern[0]
      case Literal(c) => |s| >= 1 && s[0] == c && Matches(pattern[1..], s[1..])
      case Digits(n) => n <= |s| && AllDigits(s[..n]) && Matches(pattern[1..], s[n..])
  }

  /** `s` has the layout `shape` character by character. */
  ghost predicate FitsShape(shape: string, s: string) {
    |s| == |shape| &&
    forall i :: 0 <= i < |s| ==> if shape[i] == 'D' then IsDigit(s[i]) else s[i] == shape[i]
  }

  /** The layout an atom list describes. */
  function Layout(pattern: seq<Atom>): string
    decreases |pattern|
  {
    if |pattern| == 0 then ""
    else match pattern[0]
      case Literal(c) => [c] + Layout(pattern[1..])
      case Digits(n) => Repeat('D', n) + Layout(pattern[1..])
  }

  function Repeat(c: char, n: nat): (r: string)
    ensures |r| == n
    ensures forall i :: 0 <= i < n ==> r[i] == c
  {
    if n == 0 then "" else [c] + Repeat(c, n - 1)
  }

  predicate NoLiteralD(pattern: seq<Atom>) {
    forall k :: 0 <= k < |pattern| ==> pattern[k] != Literal('D')
  }

  lemma FitsShapeAppend(a: string, b: string, s: string)
    ensures FitsShape(a + b, s) <==>
      |a| <= |s| && FitsShape(a, s[..|a|]) && FitsShape(b, s[|a|..])
  {
    if |a| <= |s| && FitsShape(a, s[..|a|]) && FitsShape(b, s[|a|..]) {
      forall i | 0 <= i < |s|
        ensures if (a + b)[i] == 'D' then IsDigit(s[i]) else s[i] == (a + b)[i]
      {
        if i < |a| {
          assert s[..|a|][i] == s[i];
        } else {
          assert s[|a|..][i - |a|] == s[i];
        }
      }
    }
    if FitsShape(a + b, s) {
      forall i | 0 <= i < |b|
        ensures if b[i] == 'D' then IsDigit(s[|a|..][i]) else s[|a|..][i] == b[i]
      {
        assert (a + b)[|a| + i] == b[i];
      }
    }
  }

  lemma FitsDigits(n: nat, s: string)
    ensures FitsShape(Repeat('D', n), s) <==> |s| == n && AllDigits(s)
  {
  }

  /** The atom matcher accepts exactly the strings of the atom list's layout. */
  lemma {:induction false} MatchesIffFitsLayout(pattern: seq<Atom>, s: string)
    requires NoLiteralD(pattern)
    ensures Matches(pattern, s) <==> FitsShape(Layout(pattern), s)
    decreases |pattern|
  {
    if |pattern| == 0 {
    } else {
      var rest := pattern[1..];
      assert NoLiteralD(rest) by {
        forall k | 0 <= k < |rest| ensures rest[k] != Literal('D') {
          assert rest[k] == pattern[k + 1];
        }
      }
      match pattern[0]
      case Literal(c) =>
        assert c != 'D' by { assert pattern[0] != Literal('D'); }
        FitsShapeAppend([c], Layout(rest), s);
        if 1 <= |s| {
          MatchesIffFitsLayout(rest, s[1..]);
          assert FitsShape([c], s[..1]) <==> s[0] == c;
        }
      case Digits(n) =>
        FitsShapeAppend(Repeat('D', n), Layout(rest), s);
        if n <= |s| {
          MatchesIffFitsLayout(rest, s[n..]);
          FitsDigits(n, s[..n]);
        }
    }
  }


  lemma {:induction false} LayoutAppend(a: seq<Atom>, b: seq<Atom>)
    ensures Layout(a + b) == Layout(a) + Layout(b)
    decreases |a|
  {
    if |a| == 0 {
      assert a + b == b;
    } else {
      assert (a + b)[1..] == a[1..] + b;
      LayoutAppend(a[1..], b);
    }
  }

  lemma DateLayout()
    ensures Layout(DatePattern) == "DDDD-DD-DD"
  {
    assert Repeat('D', 2) == "DD";
    assert Repeat('D', 4) == "DDDD";
  }

  lemma ClockLayout()
    ensures Layout(ClockPattern) == "DD:DD:DD"
  {
    assert Repeat('D', 2) == "DD";
  }

  lemma OffsetLayout()
    ensures Layout(OffsetPattern) == "+DD:DD"
  {
    assert Repeat('D', 2) == "DD";
  }

  lemma MinAuthTimeLayout()
    ensures Layout(MinAuthTimePattern) == MinAuthTimeShape
  {
    var date := DatePattern + [Literal('T')];
    var dateTime := date + ClockPattern;
    DateLayout();
    LayoutAppend(DatePattern, [Literal('T')]);
    assert Layout(date) == "DDDD-DD-DDT";
    ClockLayout();
    LayoutAppend(date, ClockPattern);
    assert Layout(dateTime) == "DDDD-DD-DDTDD:DD:DD";
    OffsetLayout();
    LayoutAppend(dateTime, OffsetPattern);
  }

  /**
   * The anchored MIN_AUTH_TIME expression, run as a pattern match. It is a
   * separate predicate so that proofs about it see one opaque call rather
   * than the matcher applied to the 19-atom constant, which the verifier
   * would unfold until it runs out of resources. MinAuthTimeAccepted proves
   * the shape characterisation once, and IsMinAuthTime hands it to callers
   * as its contract.
   */
  predicate MatchesMinAuthTime(s: string) {
    Matches(MinAuthTimePattern, s)
  }

  /**
   * MIN_AUTH_TIME is accepted exactly when it is 25 characters laid out as
   * DDDD-DD-DDTDD:DD:DD+DD:DD with ASCII digits and a literal '+'.
   */
  lemma MinAuthTimeAccepted(s: string)
    ensures MatchesMinAuthTime(s) <==> FitsShape(MinAuthTimeShape, s)
    ensures MatchesMinAuthTime(s) ==> |s| == 25 && s[19] == '+'
  {
    assert NoLiteralD(MinAuthTimePattern);
    MatchesIffFitsLayout(MinAuthTimePattern, s);
    MinAuthTimeLayout();
    if MatchesMinAuthTime(s) {
      assert MinAuthTimeShape[19] == '+';
    }
  }

  /** The MIN_AUTH_TIME test of jwtAuth.ts, lines 58-61: the anchored expression matches. */
  function IsMinAuthTime(s: string): (ok: bool)
    ensures ok <==> FitsShape(MinAuthTimeShape, s)
    ensures ok ==> |s| == 25 && s[19] == '+'
  {
    MinAuthTimeAccepted(s);
    MatchesMinAuthTime(s)
  }

  /** A negative offset, a missing offset and the empty string are all refused. */
  lemma MinAuthTimeRejections()
    ensures !IsMinAuthTime("2024-01-01T00:00:00-05:00")
    ensures !IsMinAuthTime("2024-01-01T00:00:00")
    ensures !IsMinAuthTime("")
  {
    MinAuthTimeAccepted("2024-01-01T00:00:00-05:00");
    MinAuthTimeAccepted("2024-01-01T00:00:00");
  }

  lemma ExampleDateFits()
    ensures FitsShape("DDDD-DD-DDT", "2024-01-01T")
  {
  }

  lemma ExampleClockFits()
    ensures FitsShape("DD:DD:DD", "00:00:00")
  {
  }

  lemma ExampleOffsetFits()
    ensures FitsShape("+DD:DD", "+09:00")
  {
  }

  lemma FitsShapeConcat(a: string, b: string, x: string, y: string)
    requires FitsShape(a, x) && FitsShape(b, y)
    ensures FitsShape(a + b, x + y)
  {
    FitsShapeAppend(a, b, x + y);
    assert (x + y)[..|a|] == x;
    assert (x + y)[|a|..] == y;
  }

  /**
   * The value used in jwtAuth.test.ts is accepted. The string arrives as a
   * parameter pinned by `requires` rather than as a literal in the ensures:
   * a literal there makes the verifier evaluate the matcher on it
   * character by character, beyond its resource limit. The proof goes
   * through the shape instead, piece by piece.
   */
  lemma MinAuthTimeExample(s: string)
    requires s == "2024-01-01T00:00:00+09:00"
    ensures IsMinAuthTime(s)
  {
    ExampleDateFits();
    ExampleClockFits();
    ExampleOffsetFits();
    FitsShapeConcat("DDDD-DD-DDT", "DD:DD:DD", "2024-01-01T", "00:00:00");
    FitsShapeConcat("DDDD-DD-DDT" + "DD:DD:DD", "+DD:DD", "2024-01-01T" + "00:00:00", "+09:00");
    assert "DDDD-DD-DDT" + "DD:DD:DD" + "+DD:DD" == MinAuthTimeShape;
    assert "2024-01-01T" + "00:00:00" + "+09:00" == s;
    MinAuthTimeAccepted(s);
  }
}
