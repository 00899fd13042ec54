/** The recipe file format: the line scanner that Load runs and the lines
    that Save writes. A file is a sequence of lines; the scanner keeps a read
    status and the list of recipes parsed so far, whose last entry is the
    recipe that ingredient and instruction lines are added to. */
module RecipeFile {
  import opened Wrappers
  import opened Text
  import opened Recipes

  const SectionRecipe: string := "[Recept]"
  const SectionIngredients: string := "[Ingredienser]"
  const SectionInstructions: string := "[Instruktioner]"

  /** How the next content line is read. */
  datatype ReadStatus = Indefinite | New | Ingredient | Instruction

  /** What goes wrong while scanning: a line that breaks the format
      (FileFormatException), or an ingredient or instruction line met before
      any recipe name, where the current recipe is still null
      (NullReferenceException). */
  datatype LoadError = FormatError | NoCurrentRecipe

  /** The scanner's state between lines. */
  datatype Scanner = Scanner(status: ReadStatus, parsed: seq<Recipe>)

  /** The state before the first line. */
  const Start: Scanner := Scanner(Indefinite, [])

  predicate IsMarker(line: string)
  {
    line == SectionRecipe || line == SectionIngredients || line == SectionInstructions
  }

  /** The status a marker line switches to. */
  function MarkerStatus(line: string): ReadStatus
    requires IsMarker(line)
  {
    if line == SectionRecipe then New
    else if line == SectionIngredients then ReadStatus.Ingredient
    else Instruction
  }

  /** `parsed` with its last recipe, the current one, replaced by `current`. */
  function UpdateLast(parsed: seq<Recipe>, current: Recipe): seq<Recipe>
    requires parsed != []
  {
    parsed[..|parsed| - 1] + [current]
  }

  /** `after` is `before` with `ing` appended to the ingredients of its last
      recipe, and nothing else changed. */
  predicate AddedIngredient(before: seq<Recipe>, after: seq<Recipe>, ing: Recipes.Ingredient)
  {
    && before != [] && |after| == |before|
    && (forall k :: 0 <= k < |before| - 1 ==> after[k] == before[k])
    && after[|after| - 1].name == before[|before| - 1].name
    && after[|after| - 1].ingredients == before[|before| - 1].ingredients + [ing]
    && after[|after| - 1].instructions == before[|before| - 1].instructions
  }

  /** `after` is `before` with `line` appended to the instructions of its last
      recipe, and nothing else changed. */
  predicate AddedInstruction(before: seq<Recipe>, after: seq<Recipe>, line: string)
  {
    && before != [] && |after| == |before|
    && (forall k :: 0 <= k < |before| - 1 ==> after[k] == before[k])
    && after[|after| - 1].name == before[|before| - 1].name
    && after[|after| - 1].ingredients == before[|before| - 1].ingredients
    && after[|after| - 1].instructions == before[|before| - 1].instructions + [line]
  }

  /** Reading on from `before` to `after` only appends recipes and adds to
      the last one, the current recipe: every earlier recipe stays in place as
      it was, and the current one keeps its name and gains ingredients and
      instructions only at the end of its lists. */
  predicate Extends(before: seq<Recipe>, after: seq<Recipe>)
  {
    && |before| <= |after|
    && (before != [] ==>
          && (forall k :: 0 <= k < |before| - 1 ==> after[k] == before[k])
          && after[|before| - 1].name == before[|before| - 1].name
          && before[|before| - 1].ingredients <= after[|before| - 1].ingredients
          && before[|before| - 1].instructions <= after[|before| - 1].instructions)
  }

  lemma {:induction false} ExtendsTransitive(a: seq<Recipe>, b: seq<Recipe>, c: seq<Recipe>)
    requires Extends(a, b) && Extends(b, c)
    ensures Extends(a, c)
  {
    if a != [] && |a| < |b| {
      assert c[|a| - 1] == b[|a| - 1];
    }
  }

  datatype StepResult = Next(scanner: Scanner) | Stop(error: LoadError)

  /** One non-blank line read in state `sc`. Its effect, case by case, is
      stated by StepSectionsAndNames, StepIngredientLine and
      StepInstructionLine; StepStatus and StepExtends state what holds of
      every line. */
  function Step(sc: Scanner, line: string): StepResult
    requires line != ""
  {
    if IsMarker(line) then Next(Scanner(MarkerStatus(line), sc.parsed))
    else match sc.status
      case Indefinite => Stop(FormatError)
      case New => Next(Scanner(New, sc.parsed + [Recipe(line, [], [])]))
      case Ingredient =>
        var fields := Split(line, ';');
        if |fields| != 3 then Stop(FormatError)
        else if sc.parsed == [] then Stop(NoCurrentRecipe)
        else
          var ing := Recipes.Ingredient(fields[0], fields[1], fields[2]);
          var current := sc.parsed[|sc.parsed| - 1];
          Next(Scanner(ReadStatus.Ingredient,
                       UpdateLast(sc.parsed, current.(ingredients := current.ingredients + [ing]))))
      case Instruction =>
        if sc.parsed == [] then Stop(NoCurrentRecipe)
        else
          var current := sc.parsed[|sc.parsed| - 1];
          Next(Scanner(Instruction,
                       UpdateLast(sc.parsed, current.(instructions := current.instructions + [line]))))
  }

  /** A marker line only switches the status; content before any marker
      breaks the format; under [Recept] every content line starts a new, empty
      recipe of that name, which becomes the current recipe. */
  lemma StepSectionsAndNames(sc: Scanner, line: string)
    requires line != ""
    ensures IsMarker(line) ==> Step(sc, line) == Next(Scanner(MarkerStatus(line), sc.parsed))
    ensures !IsMarker(line) && sc.status == Indefinite ==> Step(sc, line) == Stop(FormatError)
    ensures !IsMarker(line) && sc.status == New ==>
              Step(sc, line) == Next(Scanner(New, sc.parsed + [Recipe(line, [], [])]))
  {
  }

  /** Under [Ingredienser] a content line needs exactly three ';'-separated
      fields, checked first, and then a current recipe; the fields become
      amount, measure and name of an ingredient appended to the current
      recipe's ingredients. */
  lemma StepIngredientLine(sc: Scanner, line: string)
    requires line != "" && !IsMarker(line) && sc.status == ReadStatus.Ingredient
    ensures var fields := Split(line, ';');
            var r := Step(sc, line);
            && (|fields| != 3 ==> r == Stop(FormatError))
            && (|fields| == 3 && sc.parsed == [] ==> r == Stop(NoCurrentRecipe))
            && (|fields| == 3 && sc.parsed != [] ==>
                  r.Next? && r.scanner.status == ReadStatus.Ingredient &&
                  AddedIngredient(sc.parsed, r.scanner.parsed,
                                  Recipes.Ingredient(fields[0], fields[1], fields[2])))
  {
  }

  /** Under [Instruktioner] a content line needs a current recipe and is
      appended, as it is, to its instructions. */
  lemma StepInstructionLine(sc: Scanner, line: string)
    requires line != "" && !IsMarker(line) && sc.status == Instruction
    ensures var r := Step(sc, line);
            && (sc.parsed == [] ==> r == Stop(NoCurrentRecipe))
            && (sc.parsed != [] ==>
                  r.Next? && r.scanner.status == Instruction &&
                  AddedInstruction(sc.parsed, r.scanner.parsed, line))
  {
  }

  /** How a scan ends: the last state reached without error, how many
      non-blank lines were read successfully (each of them commits the sorted
      list to the repository), and the error that stopped it, if any. */
  datatype ScanEnd = ScanEnd(scanner: Scanner, commits: nat, error: Option<LoadError>)

  /** The non-blank lines of `lines`, in order. */
  function NonBlank(lines: seq<string>): (r: seq<string>)
    ensures |r| <= |lines|
    ensures forall k :: 0 <= k < |r| ==> r[k] != ""
  {
    if lines == [] then []
    else if lines[0] == "" then NonBlank(lines[1..])
    else [lines[0]] + NonBlank(lines[1..])
  }

  /** `lines` read from state `sc`: blank lines are skipped and the first
      failing line stops the scan (ScanExtends and ScanCommits state what it
      keeps and what it counts). */
  function Scan(sc: Scanner, lines: seq<string>): ScanEnd
    decreases |lines|
  {
    if lines == [] then ScanEnd(sc, 0, None)
    else if lines[0] == "" then Scan(sc, lines[1..])
    else match Step(sc, lines[0])
      case Stop(err) => ScanEnd(sc, 0, Some(err))
      case Next(sc') =>
        var rest := Scan(sc', lines[1..]);
        ScanEnd(rest.scanner, rest.commits + 1, rest.error)
  }

  /** A marker line never fails, and it is the only line that changes the
      status. */
  lemma {:induction false} StepStatus(sc: Scanner, line: string)
    requires line != ""
    ensures var r := Step(sc, line);
            && (r.Stop? ==> !IsMarker(line))
            && (r.Next? ==> r.scanner.status == if IsMarker(line) then MarkerStatus(line) else sc.status)
  {
  }

  /** A line that reads without error keeps every recipe parsed before it
      and appends at most one recipe. */
  lemma {:induction false} StepExtends(sc: Scanner, line: string)
    requires line != "" && Step(sc, line).Next?
    ensures Extends(sc.parsed, Step(sc, line).scanner.parsed)
    ensures |Step(sc, line).scanner.parsed| <= |sc.parsed| + 1
  {
  }

  /** Reading never drops or replaces a recipe parsed earlier: it only
      appends recipes and adds to the current one, which keeps its name. */
  lemma {:induction false} ScanExtends(sc: Scanner, lines: seq<string>)
    ensures Extends(sc.parsed, Scan(sc, lines).scanner.parsed)
    decreases |lines|
  {
    if lines != [] {
      if lines[0] == "" {
        ScanExtends(sc, lines[1..]);
      } else if Step(sc, lines[0]).Next? {
        var sc' := Step(sc, lines[0]).scanner;
        ScanExtends(sc', lines[1..]);
        StepExtends(sc, lines[0]);
        ExtendsTransitive(sc.parsed, sc'.parsed, Scan(sc', lines[1..]).scanner.parsed);
      }
    }
  }

  /** Each non-blank line read without error is one commit, and a scan
      without error has read every non-blank line. */
  lemma {:induction false} ScanCommits(sc: Scanner, lines: seq<string>)
    ensures var e := Scan(sc, lines);
            && e.commits <= |NonBlank(lines)|
            && (e.error == None ==> e.commits == |NonBlank(lines)|)
    decreases |lines|
  {
    if lines != [] {
      if lines[0] == "" {
        ScanCommits(sc, lines[1..]);
      } else if Step(sc, lines[0]).Next? {
        ScanCommits(Step(sc, lines[0]).scanner, lines[1..]);
      }
    }
  }

  /** Reading `a + b` is reading `a`, then, if that did not fail, reading `b`
      from where `a` ended. */
  lemma {:induction false} ScanAppend(sc: Scanner, a: seq<string>, b: seq<string>)
    ensures var ea := Scan(sc, a);
            Scan(sc, a + b) ==
              if ea.error.Some? then ea
              else var eb := Scan(ea.scanner, b);
                   ScanEnd(eb.scanner, ea.commits + eb.commits, eb.error)
    decreases |a|
  {
    if a == [] {
      assert a + b == b;
    } else {
      assert (a + b)[0] == a[0] && (a + b)[1..] == a[1..] + b;
      if a[0] == "" {
        ScanAppend(sc, a[1..], b);
      } else if Step(sc, a[0]).Next? {
        ScanAppend(Step(sc, a[0]).scanner, a[1..], b);
      }
    }
  }

  /** Blank lines change nothing: reading the file is reading its non-blank lines. */
  lemma {:induction false} BlankLinesIgnored(sc: Scanner, lines: seq<string>)
    ensures Scan(sc, lines) == Scan(sc, NonBlank(lines))
    decreases |lines|
  {
    if lines != [] {
      if lines[0] == "" {
        BlankLinesIgnored(sc, lines[1..]);
      } else {
        var nb := [lines[0]] + NonBlank(lines[1..]);
        assert nb[0] == lines[0] && nb[1..] == NonBlank(lines[1..]);
        if Step(sc, lines[0]).Next? {
          BlankLinesIgnored(Step(sc, lines[0]).scanner, lines[1..]);
        }
      }
    }
  }

  /** A file of blank lines only reads nothing and commits nothing. */
  lemma {:induction false} OnlyBlankLines(sc: Scanner, lines: seq<string>)
    requires forall k :: 0 <= k < |lines| ==> lines[k] == ""
    ensures Scan(sc, lines) == ScanEnd(sc, 0, None)
  {
    BlankLinesIgnored(sc, lines);
    assert NonBlank(lines) == [] by {
      if NonBlank(lines) != [] {
        NonBlankFrom(lines);
      }
    }
  }

  /** Every non-blank line kept comes from the input. */
  lemma {:induction false} NonBlankFrom(lines: seq<string>)
    ensures forall k :: 0 <= k < |NonBlank(lines)| ==> NonBlank(lines)[k] in lines
  {
    if lines != [] {
      NonBlankFrom(lines[1..]);
    }
  }

  /** After a prefix read without error, a blank line changes nothing. */
  lemma {:induction false} ScanBlankLine(sc0: Scanner, lines: seq<string>, i: nat, sc: Scanner, commits: nat)
    requires i < |lines| && lines[i] == ""
    requires Scan(sc0, lines[..i]) == ScanEnd(sc, commits, None)
    ensures Scan(sc0, lines[..i + 1]) == ScanEnd(sc, commits, None)
  {
    ScanAppend(sc0, lines[..i], [lines[i]]);
    assert lines[..i + 1] == lines[..i] + [lines[i]];
    assert [lines[i]][1..] == [];
  }

  /** After a prefix read without error, a non-blank line that reads adds one
      commit and moves on to the state it steps to. */
  lemma {:induction false} ScanReadLine(sc0: Scanner, lines: seq<string>, i: nat, sc: Scanner, commits: nat)
    requires i < |lines| && lines[i] != "" && Step(sc, lines[i]).Next?
    requires Scan(sc0, lines[..i]) == ScanEnd(sc, commits, None)
    ensures Scan(sc0, lines[..i + 1]) == ScanEnd(Step(sc, lines[i]).scanner, commits + 1, None)
  {
    ScanAppend(sc0, lines[..i], [lines[i]]);
    assert lines[..i + 1] == lines[..i] + [lines[i]];
    ScanOne(sc, lines[i]);
  }

  /** After a prefix read without error, a non-blank line that fails ends the
      scan of the whole file there, with that line's error. */
  lemma {:induction false} ScanFailLine(sc0: Scanner, lines: seq<string>, i: nat, sc: Scanner, commits: nat)
    requires i < |lines| && lines[i] != "" && Step(sc, lines[i]).Stop?
    requires Scan(sc0, lines[..i]) == ScanEnd(sc, commits, None)
    ensures Scan(sc0, lines) == ScanEnd(sc, commits, Some(Step(sc, lines[i]).error))
  {
    var err := Step(sc, lines[i]).error;
    var head := lines[..i + 1];
    assert Scan(sc0, head) == ScanEnd(sc, commits, Some(err)) by {
      ScanAppend(sc0, lines[..i], [lines[i]]);
      assert head == lines[..i] + [lines[i]];
      ScanOne(sc, lines[i]);
    }
    assert lines == head + lines[i + 1..];
    ScanStops(sc0, head, lines[i + 1..]);
  }

  /** Once a scan has failed, the lines after it are not read. */
  lemma {:induction false} ScanStops(sc: Scanner, a: seq<string>, b: seq<string>)
    requires Scan(sc, a).error.Some?
    ensures Scan(sc, a + b) == Scan(sc, a)
  {
    ScanAppend(sc, a, b);
  }

  /** A scan that fails stops at a non-blank line `k`: the lines before it read
      without error to the state the scan ends in, with the same commits, and
      line `k` fails from that state with the reported error. */
  lemma {:induction false} FailureKeepsPrefix(sc: Scanner, lines: seq<string>) returns (k: nat)
    requires Scan(sc, lines).error.Some?
    ensures k < |lines| && lines[k] != ""
    ensures var e := Scan(sc, lines);
            && Scan(sc, lines[..k]) == ScanEnd(e.scanner, e.commits, None)
            && Step(e.scanner, lines[k]) == Stop(e.error.value)
    decreases |lines|
  {
    if lines[0] == "" {
      var k' := FailureKeepsPrefix(sc, lines[1..]);
      k := k' + 1;
      var head := lines[..k];
      assert head[0] == "" && head[1..] == lines[1..][..k'];
      assert Scan(sc, head) == Scan(sc, lines[1..][..k']);
      assert Scan(sc, lines) == Scan(sc, lines[1..]);
    } else if Step(sc, lines[0]).Stop? {
      k := 0;
    } else {
      var sc' := Step(sc, lines[0]).scanner;
      var k' := FailureKeepsPrefix(sc', lines[1..]);
      k := k' + 1;
      var head := lines[..k];
      assert head[0] == lines[0] && head[1..] == lines[1..][..k'];
      var rest := Scan(sc', lines[1..][..k']);
      assert Scan(sc, head) == ScanEnd(rest.scanner, rest.commits + 1, rest.error);
    }
  }

  // ---- writing ----

  /** An ingredient as Save writes it: amount, measure and name separated by ';'. */
  function IngredientLine(ing: Recipes.Ingredient): string
  {
    ing.amount + ";" + ing.measure + ";" + ing.name
  }

  function IngredientLines(ings: seq<Recipes.Ingredient>): seq<string>
  {
    if ings == [] then []
    else IngredientLines(ings[..|ings| - 1]) + [IngredientLine(ings[|ings| - 1])]
  }

  /** The lines Save writes for one recipe: its marker and name, the
      ingredients marker and one line per ingredient, the instructions marker
      and the instructions; no blank lines in between. */
  function RecipeLines(r: Recipe): seq<string>
  {
    [SectionRecipe, r.name, SectionIngredients] + IngredientLines(r.ingredients)
      + [SectionInstructions] + r.instructions
  }

  /** The whole file Save writes: the recipes' lines in list order. */
  function SaveLines(rs: seq<Recipe>): seq<string>
  {
    if rs == [] then []
    else SaveLines(rs[..|rs| - 1]) + RecipeLines(rs[|rs| - 1])
  }

  /** The written file is the recipes' blocks one after another. */
  lemma {:induction false} SaveLinesAppend(a: seq<Recipe>, b: seq<Recipe>)
    ensures SaveLines(a + b) == SaveLines(a) + SaveLines(b)
    decreases |b|
  {
    if b == [] {
      assert a + b == a;
    } else {
      var init, last := b[..|b| - 1], b[|b| - 1];
      assert (a + b)[..|a + b| - 1] == a + init && (a + b)[|a + b| - 1] == last;
      SaveLinesAppend(a, init);
      var x, y, z := SaveLines(a), SaveLines(init), RecipeLines(last);
      assert (x + y) + z == x + (y + z);
    }
  }

  /** A string the reader gets back as one line: it holds no line break. */
  predicate OneLine(s: string)
  {
    '\n' !in s && '\r' !in s
  }

  /** What Save writes so that Load reads it back: every string written is a
      single line, names and instructions are neither blank nor marker lines,
      and no ingredient field holds ';'. */
  predicate Writable(r: Recipe)
  {
    && r.name != "" && !IsMarker(r.name) && OneLine(r.name)
    && (forall k :: 0 <= k < |r.instructions| ==>
          r.instructions[k] != "" && !IsMarker(r.instructions[k]) && OneLine(r.instructions[k]))
    && (forall k :: 0 <= k < |r.ingredients| ==>
          ';' !in r.ingredients[k].amount && ';' !in r.ingredients[k].measure &&
          ';' !in r.ingredients[k].name &&
          OneLine(r.ingredients[k].amount) && OneLine(r.ingredients[k].measure) &&
          OneLine(r.ingredients[k].name))
  }

  /** Reading a single non-blank line is one Step. */
  lemma {:induction false} ScanOne(sc: Scanner, line: string)
    requires line != ""
    ensures var st := Step(sc, line);
            Scan(sc, [line]) == if st.Stop? then ScanEnd(sc, 0, Some(st.error))
                                else ScanEnd(st.scanner, 1, None)
  {
    assert [line][1..] == [];
  }

  lemma {:induction false} JoinThree(a: string, b: string, c: string)
    ensures Join([a, b, c], ';') == a + ";" + b + ";" + c
  {
    var fields := [a, b, c];
    assert fields[1..] == [b, c] && fields[1..][1..] == [c];
    assert Join([c], ';') == c;
    assert Join([b, c], ';') == b + ";" + c;
    assert Join(fields, ';') == a + ";" + (b + ";" + c);
  }

  /** An ingredient line splits back into its three fields. */
  lemma {:induction false} IngredientLineSplits(ing: Recipes.Ingredient)
    requires ';' !in ing.amount && ';' !in ing.measure && ';' !in ing.name
    ensures Split(IngredientLine(ing), ';') == [ing.amount, ing.measure, ing.name]
  {
    JoinThree(ing.amount, ing.measure, ing.name);
    SplitJoin([ing.amount, ing.measure, ing.name], ';');
  }

  /** A written ingredient line is never blank and never a section marker. */
  lemma {:induction false} IngredientLineIsData(ing: Recipes.Ingredient)
    ensures IngredientLine(ing) != "" && !IsMarker(IngredientLine(ing))
  {
    var line := IngredientLine(ing);
    assert line[|ing.amount|] == ';';
    assert ';' !in SectionRecipe && ';' !in SectionIngredients && ';' !in SectionInstructions;
  }

  /** One written ingredient line read under [Ingredienser] is added to the
      current recipe. */
  lemma {:induction false} ScanIngredientLine(p: seq<Recipe>, r: Recipe, ing: Recipes.Ingredient)
    requires ';' !in ing.amount && ';' !in ing.measure && ';' !in ing.name
    ensures Scan(Scanner(ReadStatus.Ingredient, p + [r]), [IngredientLine(ing)]) ==
              ScanEnd(Scanner(ReadStatus.Ingredient, p + [r.(ingredients := r.ingredients + [ing])]), 1, None)
  {
    IngredientLineSplits(ing);
    IngredientLineIsData(ing);
    ScanOne(Scanner(ReadStatus.Ingredient, p + [r]), IngredientLine(ing));
    assert (p + [r])[..|p + [r]| - 1] == p;
  }

  /** Ingredient lines written for `ings` read back, under [Ingredienser],
      onto the current recipe. */
  lemma {:induction false} ScanIngredients(p: seq<Recipe>, r: Recipe, ings: seq<Recipes.Ingredient>)
    requires forall k :: 0 <= k < |ings| ==>
               ';' !in ings[k].amount && ';' !in ings[k].measure && ';' !in ings[k].name
    ensures Scan(Scanner(ReadStatus.Ingredient, p + [r]), IngredientLines(ings)) ==
              ScanEnd(Scanner(ReadStatus.Ingredient, p + [r.(ingredients := r.ingredients + ings)]), |ings|, None)
    decreases |ings|
  {
    if ings == [] {
      assert r.ingredients + ings == r.ingredients;
    } else {
      var init, last := ings[..|ings| - 1], ings[|ings| - 1];
      ScanIngredients(p, r, init);
      ScanAppend(Scanner(ReadStatus.Ingredient, p + [r]), IngredientLines(init), [IngredientLine(last)]);
      var r' := r.(ingredients := r.ingredients + init);
      ScanIngredientLine(p, r', last);
      assert r.ingredients + init + [last] == r.ingredients + ings;
    }
  }

  /** One instruction line read under [Instruktioner] is added to the current recipe. */
  lemma {:induction false} ScanInstructionLine(p: seq<Recipe>, r: Recipe, line: string)
    requires line != "" && !IsMarker(line)
    ensures Scan(Scanner(Instruction, p + [r]), [line]) ==
              ScanEnd(Scanner(Instruction, p + [r.(instructions := r.instructions + [line])]), 1, None)
  {
    ScanOne(Scanner(Instruction, p + [r]), line);
    assert (p + [r])[..|p + [r]| - 1] == p;
  }

  /** Instruction lines read back, under [Instruktioner], onto the current recipe. */
  lemma {:induction false} ScanInstructions(p: seq<Recipe>, r: Recipe, lines: seq<string>)
    requires forall k :: 0 <= k < |lines| ==> lines[k] != "" && !IsMarker(lines[k])
    ensures Scan(Scanner(Instruction, p + [r]), lines) ==
              ScanEnd(Scanner(Instruction, p + [r.(instructions := r.instructions + lines)]), |lines|, None)
    decreases |lines|
  {
    if lines == [] {
      assert r.instructions + lines == r.instructions;
    } else {
      var init, last := lines[..|lines| - 1], lines[|lines| - 1];
      ScanInstructions(p, r, init);
      assert lines == init + [last];
      ScanAppend(Scanner(Instruction, p + [r]), init, [last]);
      var r' := r.(instructions := r.instructions + init);
      ScanInstructionLine(p, r', last);
      assert r.instructions + init + [last] == r.instructions + lines;
    }
  }

  /** One recipe's block, read from any state, appends exactly that recipe. */
  lemma {:induction false} ScanRecipe(sc: Scanner, r: Recipe)
    requires Writable(r)
    ensures Scan(sc, RecipeLines(r)) ==
              ScanEnd(Scanner(Instruction, sc.parsed + [r]), |RecipeLines(r)|, None)
  {
    var head := [SectionRecipe, r.name, SectionIngredients];
    var ingLines := IngredientLines(r.ingredients);
    var named := Recipe(r.name, [], []);
    assert Scan(sc, head) == ScanEnd(Scanner(ReadStatus.Ingredient, sc.parsed + [named]), 3, None) by {
      var s1 := Scanner(New, sc.parsed);
      var s2 := Scanner(New, sc.parsed + [named]);
      ScanOne(sc, SectionRecipe);
      ScanOne(s1, r.name);
      ScanOne(s2, SectionIngredients);
      ScanAppend(sc, [SectionRecipe], [r.name]);
      ScanAppend(sc, [SectionRecipe, r.name], [SectionIngredients]);
      assert [SectionRecipe] + [r.name] == [SectionRecipe, r.name];
      assert [SectionRecipe, r.name] + [SectionIngredients] == head;
    }
    ScanIngredients(sc.parsed, named, r.ingredients);
    ScanAppend(sc, head, ingLines);
    var withIngs := Recipe(r.name, r.ingredients, []);
    assert named.(ingredients := [] + r.ingredients) == withIngs;
    ScanAppend(sc, head + ingLines, [SectionInstructions]);
    assert [SectionInstructions][1..] == [];
    ScanInstructions(sc.parsed, withIngs, r.instructions);
    ScanAppend(sc, head + ingLines + [SectionInstructions], r.instructions);
    assert withIngs.(instructions := [] + r.instructions) == r;
    assert |RecipeLines(r)| == 3 + |ingLines| + 1 + |r.instructions|;
    IngredientLinesLength(r.ingredients);
  }

  lemma {:induction false} IngredientLinesLength(ings: seq<Recipes.Ingredient>)
    ensures |IngredientLines(ings)| == |ings|
    decreases |ings|
  {
    if ings != [] {
      IngredientLinesLength(ings[..|ings| - 1]);
    }
  }

  /** Reading what Save wrote for `rs` appends `rs` to the parsed list, in
      order, reading every line without error. */
  lemma {:induction false} ScanSaved(sc: Scanner, rs: seq<Recipe>)
    requires forall k :: 0 <= k < |rs| ==> Writable(rs[k])
    ensures var e := Scan(sc, SaveLines(rs));
            && e.error == None
            && e.commits == |SaveLines(rs)|
            && e.scanner.parsed == sc.parsed + rs
            && (rs != [] ==> e.scanner.status == Instruction)
    decreases |rs|
  {
    if rs == [] {
      assert sc.parsed + rs == sc.parsed;
    } else {
      var init, last := rs[..|rs| - 1], rs[|rs| - 1];
      ScanSaved(sc, init);
      ScanAppend(sc, SaveLines(init), RecipeLines(last));
      var mid := Scan(sc, SaveLines(init)).scanner;
      ScanRecipe(mid, last);
      assert sc.parsed + init + [last] == sc.parsed + rs;
    }
  }

  /** Round trip: reading back, from the start state, the file written for a
      non-empty list of writable recipes reads every line without error and
      parses exactly that list. */
  lemma {:induction false} RoundTrip(rs: seq<Recipe>)
    requires rs != []
    requires forall k :: 0 <= k < |rs| ==> Writable(rs[k])
    ensures var e := Scan(Start, SaveLines(rs));
            e.error == None && e.commits > 0 && e.scanner.parsed == rs
  {
    ScanSaved(Start, rs);
    SaveLinesAppend(rs[..|rs| - 1], [rs[|rs| - 1]]);
    assert rs == rs[..|rs| - 1] + [rs[|rs| - 1]];
    assert SaveLines([rs[|rs| - 1]]) == SaveLines([]) + RecipeLines(rs[|rs| - 1]);
  }
}
