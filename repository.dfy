/** The recipe repository: the stored list of recipes, the flag that says it
    changed since it was last loaded or saved, and the operations on them.
    The file is a sequence of lines: Load reads one, Save returns one. */
module Repository {
  import opened Wrappers
  import opened Text
  import opened Recipes
  import opened Sorting
  import opened RecipeFile

  /** What GetAt and Delete(index) throw for an index outside the list
      (ArgumentOutOfRangeException). */
  datatype IndexError = OutOfRange

  /** The position of the first entry equal to `x`. */
  function FirstIndex<T(==)>(s: seq<T>, x: T): (i: nat)
    requires x in s
    ensures i < |s| && s[i] == x && x !in s[..i]
  {
    if s[0] == x then 0
    else
      assert x in s[1..] by { assert s == [s[0]] + s[1..]; }
      var k := FirstIndex(s[1..], x);
      assert s[..k + 1] == [s[0]] + s[1..][..k];
      1 + k
  }

  /** `s` without its first entry equal to `x`, as List<T>.Remove does; `s`
      itself when no entry is equal to `x`. */
  function RemoveFirst<T(==)>(s: seq<T>, x: T): (r: seq<T>)
    ensures x !in s ==> r == s
  {
    if s == [] then []
    else if s[0] == x then s[1..]
    else
      assert x !in s ==> x !in s[1..];
      [s[0]] + RemoveFirst(s[1..], x)
  }

  /** When `x` occurs in `s`, removing it cuts out exactly the position of its
      first occurrence. */
  lemma {:induction false} RemoveFirstSplits<T>(s: seq<T>, x: T)
    requires x in s
    ensures RemoveFirst(s, x) == s[..FirstIndex(s, x)] + s[FirstIndex(s, x) + 1..]
  {
    if s[0] == x {
      assert s[..0] + s[1..] == s[1..];
    } else {
      var t := s[1..];
      assert x in t by { assert s == [s[0]] + t; }
      var k := FirstIndex(t, x);
      assert FirstIndex(s, x) == k + 1;
      assert RemoveFirst(s, x) == [s[0]] + RemoveFirst(t, x);
      assert RemoveFirst(t, x) == t[..k] + t[k + 1..] by { RemoveFirstSplits(t, x); }
      ConsSlices(s, k);
    }
  }

  /** Putting the head back in front of a cut of the tail. */
  lemma {:induction false} ConsSlices<T>(s: seq<T>, k: nat)
    requires k + 1 < |s|
    ensures [s[0]] + (s[1..][..k] + s[1..][k + 1..]) == s[..k + 1] + s[k + 2..]
  {
    assert [s[0]] + s[1..][..k] == s[..k + 1];
    assert s[1..][k + 1..] == s[k + 2..];
  }

  /** Cutting out position `i` takes one copy of `s[i]` out of the multiset. */
  lemma {:induction false} MultisetRemoveAt<T>(s: seq<T>, i: nat)
    requires i < |s|
    ensures multiset(s[..i] + s[i + 1..]) == multiset(s) - multiset{s[i]}
  {
    assert s == s[..i] + [s[i]] + s[i + 1..];
  }

  /** Removing by value takes away one copy of `x` when there is one, and
      nothing else. */
  lemma {:induction false} RemoveFirstCount<T>(s: seq<T>, x: T)
    ensures multiset(RemoveFirst(s, x)) == multiset(s) - multiset{x}
    ensures |RemoveFirst(s, x)| == if x in s then |s| - 1 else |s|
  {
    if x in s {
      var i := FirstIndex(s, x);
      assert RemoveFirst(s, x) == s[..i] + s[i + 1..] by { RemoveFirstSplits(s, x); }
      MultisetRemoveAt(s, i);
    }
  }

  /** Removing the entry at `i` by value removes exactly position `i` when no
      earlier entry is equal to it; otherwise the earlier equal entry goes. */
  lemma {:induction false} RemoveEntryAt<T>(s: seq<T>, i: nat)
    requires i < |s|
    ensures FirstIndex(s, s[i]) <= i
    ensures s[i] !in s[..i] ==> RemoveFirst(s, s[i]) == s[..i] + s[i + 1..]
  {
    var f := FirstIndex(s, s[i]);
    forall j | 0 <= j < f ensures s[j] != s[i] {
      assert s[..f][j] == s[j];
    }
    assert f <= i;
    if s[i] !in s[..i] {
      forall j | 0 <= j < i ensures s[j] != s[i] {
        assert s[..i][j] == s[j];
      }
      assert f == i;
      RemoveFirstSplits(s, s[i]);
    }
  }

  /** Load after Save: reading back the file written for a non-empty,
      name-sorted list of writable recipes commits that same list. */
  lemma {:induction false} SaveThenLoad(rs: seq<Recipe>)
    requires rs != [] && SortedByName(rs)
    requires forall k :: 0 <= k < |rs| ==> Writable(rs[k])
    ensures var e := Scan(Start, SaveLines(rs));
            e.error == None && e.commits > 0 && SortByName(e.scanner.parsed) == rs
  {
    var e := Scan(Start, SaveLines(rs));
    assert e.error == None && e.commits > 0 && e.scanner.parsed == rs by { RoundTrip(rs); }
    assert SortByName(rs) == rs by { SortedUnchanged(rs); }
  }

  /** One non-blank line of Load's loop, read with status `status` while
      `parsed` holds the recipes read so far, the last of them being the
      current recipe (a null reference while `parsed` is empty). */
  method ReadLine(status: ReadStatus, parsed: seq<Recipe>, line: string) returns (next: StepResult)
    requires line != ""
    ensures next == Step(Scanner(status, parsed), line)
  {
    if line == SectionRecipe {
      next := Next(Scanner(New, parsed));
    } else if line == SectionIngredients {
      next := Next(Scanner(ReadStatus.Ingredient, parsed));
    } else if line == SectionInstructions {
      next := Next(Scanner(Instruction, parsed));
    } else if status == New {
      next := Next(Scanner(New, parsed + [Recipe(line, [], [])]));
    } else if status == ReadStatus.Ingredient {
      var fields := Split(line, ';');
      if |fields| != 3 {
        return Stop(FormatError);
      }
      if parsed == [] {
        return Stop(NoCurrentRecipe);
      }
      var current := parsed[|parsed| - 1];
      var ingredient := Recipes.Ingredient(fields[0], fields[1], fields[2]);
      next := Next(Scanner(ReadStatus.Ingredient,
                           parsed[..|parsed| - 1] + [current.(ingredients := current.ingredients + [ingredient])]));
    } else if status == Instruction {
      if parsed == [] {
        return Stop(NoCurrentRecipe);
      }
      var current := parsed[|parsed| - 1];
      next := Next(Scanner(Instruction,
                           parsed[..|parsed| - 1] + [current.(instructions := current.instructions + [line])]));
    } else {
      next := Stop(FormatError);
    }
  }

  class RecipeRepository {
    /** The stored recipes (the private list _recipes). */
    var recipes: seq<Recipe>
    /** Whether the list changed since it was last loaded or saved. */
    var isModified: bool
    /** How many times RecipesChangedEvent has been raised. */
    var changeEvents: nat

    /** A repository starts with no recipes (the file path is not modelled). */
    constructor ()
      ensures recipes == [] && !isModified && changeEvents == 0
    {
      recipes := [];
      isModified := false;
      changeEvents := 0;
    }

    /** The stored recipes, in stored order, as values the caller cannot use
        to change the repository. */
    method GetAll() returns (all: seq<Recipe>)
      ensures all == recipes
    {
      all := recipes;
    }

    /** The recipe at `index`, or OutOfRange when there is none. */
    method GetAt(index: int) returns (r: Result<Recipe, IndexError>)
      ensures 0 <= index < |recipes| ==> r == Ok(recipes[index])
      ensures !(0 <= index < |recipes|) ==> r == Err(OutOfRange)
    {
      if 0 <= index < |recipes| {
        r := Ok(recipes[index]);
      } else {
        r := Err(OutOfRange);
      }
    }

    /** Removes the first stored recipe equal to `recipe`, if there is one.
        The list counts as modified and the change event is raised in every
        case, also when nothing matched. */
    method Delete(recipe: Recipe)
      modifies this
      ensures recipes == RemoveFirst(old(recipes), recipe)
      ensures isModified
      ensures changeEvents == old(changeEvents) + 1
    {
      // Contains, then Find by Equals: with value equality both resolve
      // `recipe` to the first equal entry or to nothing, and Remove of
      // nothing leaves the list as it is.
      recipes := RemoveFirst(recipes, recipe);
      isModified := true;
      changeEvents := changeEvents + 1;
    }

    /** Deletes the recipe stored at `index` by value; an index outside the
        list fails before anything changes. */
    method DeleteAt(index: int) returns (r: Outcome<IndexError>)
      modifies this
      ensures !(0 <= index < |old(recipes)|) ==>
                r == Fail(OutOfRange) && recipes == old(recipes) &&
                isModified == old(isModified) && changeEvents == old(changeEvents)
      ensures 0 <= index < |old(recipes)| ==>
                r == Pass && recipes == RemoveFirst(old(recipes), old(recipes)[index]) &&
                isModified && changeEvents == old(changeEvents) + 1
    {
      if !(0 <= index < |recipes|) {
        return Fail(OutOfRange);
      }
      Delete(recipes[index]);
      r := Pass;
    }

    /** Reads the file `lines`. After every non-blank line read without
        error the stored list becomes the recipes parsed so far, sorted by
        name, the list counts as unmodified and the change event is raised;
        the first failing line stops the load and leaves what the lines
        before it committed. */
    method Load(lines: seq<string>) returns (r: Outcome<LoadError>)
      modifies this
      ensures var e := Scan(Start, lines);
              && r == (if e.error.Some? then Fail(e.error.value) else Pass)
              && (e.commits == 0 ==> recipes == old(recipes) && isModified == old(isModified))
              && (e.commits > 0 ==> recipes == SortByName(e.scanner.parsed) && !isModified)
              && changeEvents == old(changeEvents) + e.commits
    {
      // The recipes read so far; the last one is the current recipe that
      // ingredient and instruction lines go to, and there is none (the
      // reference is null) while the list is empty.
      var parsed: seq<Recipe> := [];
      var status := Indefinite;
      ghost var commits := 0;
      var i := 0;
      while i < |lines|
        invariant 0 <= i <= |lines|
        invariant Scan(Start, lines[..i]) == ScanEnd(Scanner(status, parsed), commits, None)
        invariant commits == 0 ==> recipes == old(recipes) && isModified == old(isModified)
        invariant commits > 0 ==> recipes == SortByName(parsed) && !isModified
        invariant changeEvents == old(changeEvents) + commits
      {
        var line := lines[i];
        ghost var before := Scanner(status, parsed);
        if line != "" {
          var next := ReadLine(status, parsed, line);
          if next.Stop? {
            assert Scan(Start, lines) == ScanEnd(before, commits, Some(next.error)) by {
              ScanFailLine(Start, lines, i, before, commits);
            }
            return Fail(next.error);
          }
          assert Scan(Start, lines[..i + 1]) == ScanEnd(next.scanner, commits + 1, None) by {
            ScanReadLine(Start, lines, i, before, commits);
          }
          status, parsed := next.scanner.status, next.scanner.parsed;
          recipes := SortByName(parsed);
          changeEvents := changeEvents + 1;
          isModified := false;
          commits := commits + 1;
        } else {
          assert Scan(Start, lines[..i + 1]) == ScanEnd(before, commits, None) by {
            ScanBlankLine(Start, lines, i, before, commits);
          }
        }
        i := i + 1;
      }
      assert lines[..i] == lines;
      r := Pass;
    }

    /** The file Save writes: for each stored recipe, in stored order, its
        block of lines. Afterwards the list counts as unmodified and the
        change event has been raised once. */
    method Save() returns (lines: seq<string>)
      modifies this
      ensures lines == SaveLines(recipes)
      ensures recipes == old(recipes) && !isModified
      ensures changeEvents == old(changeEvents) + 1
    {
      var rs := recipes;
      lines := [];
      for k := 0 to |rs|
        invariant lines == SaveLines(rs[..k])
      {
        var recipe := rs[k];
        var block := [SectionRecipe, recipe.name, SectionIngredients];
        for j := 0 to |recipe.ingredients|
          invariant block == [SectionRecipe, recipe.name, SectionIngredients]
                               + IngredientLines(recipe.ingredients[..j])
        {
          assert recipe.ingredients[..j + 1][..j] == recipe.ingredients[..j];
          block := block + [IngredientLine(recipe.ingredients[j])];
        }
        assert recipe.ingredients[..|recipe.ingredients|] == recipe.ingredients;
        block := block + [SectionInstructions];
        ghost var header := block;
        for j := 0 to |recipe.instructions|
          invariant block == header + recipe.instructions[..j]
        {
          assert recipe.instructions[..j + 1] == recipe.instructions[..j] + [recipe.instructions[j]];
          block := block + [recipe.instructions[j]];
        }
        assert recipe.instructions[..|recipe.instructions|] == recipe.instructions;
        assert block == RecipeLines(recipe);
        assert rs[..k + 1][..k] == rs[..k];
        lines := lines + block;
      }
      assert rs[..|rs|] == rs;
      changeEvents := changeEvents + 1;
      isModified := false;
    }
  }
}
