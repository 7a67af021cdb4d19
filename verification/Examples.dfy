/** Inputs that the program's own tests use, and small vectors of its formats. */
module Examples {
  import opened Protocol
  import opened Framing
  import opened Cobs
  import opened Supervisor
  import opened Discovery
  import opened TextTools

  /** Frames of the basic code. */
  lemma SmallFrames()
    ensures Frame([]) == [1, 0]
    ensures Frame([0]) == [1, 1, 0]
    ensures Frame([7, 0, 9]) == [2, 7, 2, 9, 0]
  {
    assert [0][1..] == [];
    assert [7, 0, 9][1..] == [0, 9] && [0, 9][1..] == [9] && [9][1..] == [];
    assert Encoded([], [9]) == [2, 9];
    assert Encoded([7], [0, 9]) == [2, 7] + Encoded([], [9]);
  }

  /** A printed case without white space at its ends. */
  function CaseLine(suite: Str, group: Str, name: Str): Str {
    "list-case:" + (suite + ['.'] + (group + ['.'] + name))
  }

  lemma NamedLine(suite: Str, group: Str, name: Str)
    requires suite != [] && !IsSpace(suite[0]) && name != [] && !IsSpace(name[|name| - 1])
    requires '.' !in suite && '.' !in group
    ensures LineCases(CaseLine(suite, group, name)) == Ok([TestCase(suite, group, name)])
  {
    var text := suite + ['.'] + (group + ['.'] + name);
    assert CaseLine(suite, group, name)[10..] == text;
    assert text[0] == suite[0] && text[|text| - 1] == name[|name| - 1];
    assert Trimmed(text) == text;
    CaseIsSplit(text, TestCase(suite, group, name));
  }

  /** Names as the program's tests have them. */
  predicate Fine(suite: Str, group: Str, name: Str) {
    && suite != [] && !IsSpace(suite[0]) && name != [] && !IsSpace(name[|name| - 1])
    && '.' !in suite && '.' !in group && '\n' !in suite && '\n' !in group && '\n' !in name
  }

  /** One line that reads as these cases. */
  ghost predicate Reads(line: Str, cases: seq<TestCase>) {
    '\n' !in line && line != [] && line[|line| - 1] != '\r' && LineCases(line) == Ok(cases)
  }

  lemma FineLine(c: TestCase)
    requires Fine(c.suite, c.group, c.name)
    ensures Reads(CaseLine(c.suite, c.group, c.name), [c])
  {
    NamedLine(c.suite, c.group, c.name);
    NoLineEnds(c.suite, c.group, c.name);
  }

  lemma ThreeRead(a: Str, b: Str, c: Str, x: TestCase, y: TestCase)
    requires Reads(a, []) && Reads(b, [x]) && Reads(c, [y])
    ensures Interpret(LineCases, Lines(TextOf([a, b, c], ""))) == Ok([x, y])
  {
    ThreeLines(a, b, c);
    TwoCases(a, b, c, x, y);
  }

  /** A banner and two cases. */
  lemma BannerAndTwo(banner: Str, a: TestCase, b: TestCase)
    requires Fine(a.suite, a.group, a.name) && Fine(b.suite, b.group, b.name)
    requires banner != [] && !Prefixed(banner) && '\n' !in banner && banner[|banner| - 1] != '\r'
    ensures Interpret(LineCases, Lines(TextOf([banner, CaseLine(a.suite, a.group, a.name),
                                               CaseLine(b.suite, b.group, b.name)], ""))) == Ok([a, b])
  {
    FineLine(a);
    FineLine(b);
    LineMeaning(banner);
    ThreeRead(banner, CaseLine(a.suite, a.group, a.name), CaseLine(b.suite, b.group, b.name), a, b);
  }

  lemma FineNames()
    ensures Fine("Math", "Basic", "AddPositive") && Fine("Expect", "Pointers", "NotNull")
  {
  }

  lemma FineBanner()
    ensures var banner: Str := "=== PolyOnTest ===";
            !Prefixed(banner) && '\n' !in banner && banner[|banner| - 1] == '='
  {
    assert "list-case:"[0] == 'l' && "=== PolyOnTest ==="[0] == '=';
  }

  /** The input of the program's own test of the parser. */
  lemma BannerAndCases()
    ensures Interpret(LineCases, Lines(TextOf(["=== PolyOnTest ===", CaseLine("Math", "Basic", "AddPositive"),
                                               CaseLine("Expect", "Pointers", "NotNull")], ""))) ==
            Ok([TestCase("Math", "Basic", "AddPositive"), TestCase("Expect", "Pointers", "NotNull")])
  {
    FineNames();
    FineBanner();
    BannerAndTwo("=== PolyOnTest ===", TestCase("Math", "Basic", "AddPositive"), TestCase("Expect", "Pointers", "NotNull"));
  }

  lemma NoLineEnds(suite: Str, group: Str, name: Str)
    requires '\n' !in suite && '\n' !in group && '\n' !in name && name != [] && name[|name| - 1] != '\r'
    ensures '\n' !in CaseLine(suite, group, name)
    ensures CaseLine(suite, group, name)[|CaseLine(suite, group, name)| - 1] != '\r'
  {
  }

  lemma ThreeLines(a: Str, b: Str, c: Str)
    requires '\n' !in a && '\n' !in b && '\n' !in c && a != [] && b != [] && c != []
    requires a[|a| - 1] != '\r' && b[|b| - 1] != '\r' && c[|c| - 1] != '\r'
    ensures Lines(TextOf([a, b, c], "")) == [a, b, c]
  {
    var lines := [a, b, c];
    LinesOfText(lines, "");
    var two: seq<Str>, one: seq<Str>, none: seq<Str> := lines[1..], lines[1..][1..], lines[1..][1..][1..];
    assert two == [b, c] && one == [c] && none == [];
    assert StripAll(none) == [] && StripAll(one) == [c] && StripAll(two) == [b, c];
  }

  lemma TwoCases(a: Str, b: Str, c: Str, x: TestCase, y: TestCase)
    requires LineCases(a) == Ok([]) && LineCases(b) == Ok([x]) && LineCases(c) == Ok([y])
    ensures Interpret(LineCases, [a, b, c]) == Ok([x, y])
  {
    var none: seq<Str> := [];
    assert [a, b, c] == [a] + ([b] + ([c] + none));
    assert Interpret(LineCases, none) == Ok([]);
    InterpretCons(LineCases, c, none);
    InterpretCons(LineCases, b, [c] + none);
    InterpretCons(LineCases, a, [b] + ([c] + none));
    assert [x] + ([y] + []) == [x, y] && [] + [x, y] == [x, y];
  }
}
