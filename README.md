# Recipe repository: a verified model

This project models the recipe repository of FiledRecipes
(`RecipeRepository` in `FiledRecipes/FiledRecipes.Domain/RecipeRepository.cs`).
The repository keeps a list of recipes and an `IsModified` flag. It loads the
list from a line-oriented text file and saves it back in the same format.
It hands out the recipes by index or all at once, and deletes them by value or
by index.

A recipe file is a sequence of lines. Three literal marker lines switch the
reader's status:

- `[Recept]`: the next lines are recipe names;
- `[Ingredienser]`: ingredient lines of the form `amount;measure;name`;
- `[Instruktioner]`: instruction lines, kept verbatim.

Blank lines are skipped. Any other line before the first marker breaks the
format.

Modules, one per file:

- `Wrappers` (wrappers.dfy): `Option`, `Result` and `Outcome`.
- `Text` (text.dfy): `Split`, which splits on one separator character the way
  `String.Split(char)` does and keeps empty tokens, and its inverse `Join`.
- `NameOrder` (name_order.dfy): the ordinal order on names and its total-order
  lemmas.
- `Recipes` (recipes.dfy): the `Recipe` and `Ingredient` values.
- `Sorting` (sorting.dfy): `SortByName`, the stable sort by name that
  `OrderBy(r => r.Name)` performs. It is proved against an independent
  definition of a stable sort, and that stable sort is proved unique.
- `RecipeFile` (recipe_file.dfy): the reader and the writer of the file
  format.
  - `Step` reads one line and `Scan` reads a whole file. Each non-blank line
    read without error is one commit.
  - `SaveLines` gives the lines that `Save` writes.
  - It also holds the round trip between the reader and the writer.
- `Repository` (repository.dfy): the class `RecipeRepository`.
  - Its fields are the list, the flag, and a counter of raised change events.
  - `Load` and `Save` are loops over lines and are proved against `Scan` and
    `SaveLines`.
  - `ReadLine` is the body of `Load`'s loop for one non-blank line.
  - `RemoveFirst` is `List<T>.Remove`.

Load takes the file's lines as a parameter and Save returns the lines it
writes. The reader's state is the status plus the list of recipes parsed so
far. The last of those recipes is the current recipe that ingredient and
instruction lines are added to. While the list is empty the current recipe is
a null reference.

Where one might expect otherwise, the model follows the code:

- The sort and the commit happen inside the loop, after every non-blank line
  that was read without error (lines 202-205).
  - A load that fails keeps what the lines before the failing one committed.
    It leaves the old list untouched only when the failing line is the
    file's first non-blank line; otherwise the list is the sorted recipes
    that the earlier lines committed.
  - A file with no non-blank lines leaves the list, the flag and the event
    count as they were. Such a file gives an empty list only when the
    list was already empty, as on a new repository.
- `Delete(recipe)` marks the list modified and raises the change event even
  when no stored recipe is equal to the argument (lines 93-100).
- An ingredient or instruction line before any recipe name dereferences a
  null recipe (lines 135, 186 and 192). This is the `NoCurrentRecipe` error.
  On an ingredient line the token count is checked first (line 177), so a line
  with the wrong number of fields is a `FormatError` even then.

## Model

| member | source | states |
|---|---|---|
| Text.Split | FiledRecipes/FiledRecipes.Domain/RecipeRepository.cs:175 | splitting on ';' gives one token more than the line has ';' characters, empty tokens included, and no token contains ';' |
| Text.SplitRejoins | FiledRecipes/FiledRecipes.Domain/RecipeRepository.cs:175 | the tokens of a split, joined again with the separator, give back the original line, so no character is lost |
| Text.SplitJoin | FiledRecipes/FiledRecipes.Domain/RecipeRepository.cs:175 | tokens that contain no separator come back unchanged when their join is split again |
| NameOrder.LeReflexive | FiledRecipes/FiledRecipes.Domain/RecipeRepository.cs:202 | the name order used for sorting is reflexive |
| NameOrder.LeTotal | FiledRecipes/FiledRecipes.Domain/RecipeRepository.cs:202 | of any two names, one sorts no later than the other |
| NameOrder.LeAntisymmetric | FiledRecipes/FiledRecipes.Domain/RecipeRepository.cs:202 | two names that each sort no later than the other are equal |
| NameOrder.LeTransitive | FiledRecipes/FiledRecipes.Domain/RecipeRepository.cs:202 | the name order is transitive |
| Sorting.Insert | FiledRecipes/FiledRecipes.Domain/RecipeRepository.cs:202 | inserting a recipe adds exactly that recipe to the list's multiset |
| Sorting.SortByName | FiledRecipes/FiledRecipes.Domain/RecipeRepository.cs:202 | the sorted list is a permutation of the input |
| Sorting.InsertSorted | FiledRecipes/FiledRecipes.Domain/RecipeRepository.cs:202 | inserting into a list sorted by name keeps it sorted |
| Sorting.InsertNamed | FiledRecipes/FiledRecipes.Domain/RecipeRepository.cs:202 | insertion keeps recipes of equal name in their original order, with the new one after them |
| Sorting.SortByNameIsStableSort | FiledRecipes/FiledRecipes.Domain/RecipeRepository.cs:202 | the result is sorted by name, and for every name its recipes appear in the same relative order as in the input (the stability of OrderBy) |
| Sorting.StableSortUnique | FiledRecipes/FiledRecipes.Domain/RecipeRepository.cs:202 | any two stable sorts by name of the same list are equal, so SortByName is the list OrderBy produces |
| Sorting.SortedUnchanged | FiledRecipes/FiledRecipes.Domain/RecipeRepository.cs:202 | a list already sorted by name is its own sort |
| RecipeFile.Step | FiledRecipes/FiledRecipes.Domain/RecipeRepository.cs:145-198 | one non-blank line read in a given status with the recipes parsed so far; it has no contract of its own, and StepSectionsAndNames, StepIngredientLine, StepInstructionLine, StepStatus and StepExtends state its behaviour |
| RecipeFile.StepStatus | FiledRecipes/FiledRecipes.Domain/RecipeRepository.cs:147-160 | a marker line never fails, and only a marker line changes the status |
| RecipeFile.StepExtends | FiledRecipes/FiledRecipes.Domain/RecipeRepository.cs:165-193 | a line that reads without error keeps every earlier recipe as it was, keeps the current one's name and its ingredients and instructions as a prefix of the new ones, and appends at most one recipe |
| RecipeFile.StepSectionsAndNames | FiledRecipes/FiledRecipes.Domain/RecipeRepository.cs:145-198 | a marker line only sets the status and adds nothing; a content line in the Indefinite status is a format error; in the New status it appends a new empty recipe of that name, which becomes current, and the status stays New |
| RecipeFile.StepIngredientLine | FiledRecipes/FiledRecipes.Domain/RecipeRepository.cs:172-188 | an ingredient line without exactly three fields is a format error; with three fields and no current recipe it fails on the null recipe; otherwise the fields become amount, measure and name of an ingredient appended to the current recipe, and nothing else changes |
| RecipeFile.StepInstructionLine | FiledRecipes/FiledRecipes.Domain/RecipeRepository.cs:190-193 | an instruction line with no current recipe fails on the null recipe; otherwise it is appended verbatim to the current recipe's instructions, and nothing else changes |
| RecipeFile.Scan | FiledRecipes/FiledRecipes.Domain/RecipeRepository.cs:142-207 | the whole loop over a file's lines, stopping at the first failing line; it has no contract of its own, and ScanExtends, ScanCommits, ScanAppend, BlankLinesIgnored, FailureKeepsPrefix and RoundTrip state its behaviour |
| RecipeFile.ScanExtends | FiledRecipes/FiledRecipes.Domain/RecipeRepository.cs:142-207 | reading a file keeps every recipe parsed before it in place and unchanged, except that the current recipe keeps its name and its ingredients and instructions and may gain more at the end of each list; new recipes only go at the end |
| RecipeFile.ScanCommits | FiledRecipes/FiledRecipes.Domain/RecipeRepository.cs:142-207 | reading commits at most once per non-blank line, and exactly once per non-blank line when no line fails |
| RecipeFile.ScanAppend | FiledRecipes/FiledRecipes.Domain/RecipeRepository.cs:142-207 | reading a + b is reading a and then, unless a failed, reading b from where a ended, with the commits added up |
| RecipeFile.BlankLinesIgnored | FiledRecipes/FiledRecipes.Domain/RecipeRepository.cs:145 | blank lines change neither the status nor any data: reading a file is reading its non-blank lines |
| RecipeFile.OnlyBlankLines | FiledRecipes/FiledRecipes.Domain/RecipeRepository.cs:142-207 | a file of blank lines only reads nothing and commits nothing |
| RecipeFile.ScanBlankLine | FiledRecipes/FiledRecipes.Domain/RecipeRepository.cs:145 | after a prefix read without error, a blank line changes neither the state nor the commits |
| RecipeFile.ScanReadLine | FiledRecipes/FiledRecipes.Domain/RecipeRepository.cs:145-205 | after a prefix read without error, a non-blank line that reads moves to the state it steps to and adds one commit |
| RecipeFile.ScanFailLine | FiledRecipes/FiledRecipes.Domain/RecipeRepository.cs:145-198 | after a prefix read without error, a non-blank line that fails ends the whole load there with that line's error |
| RecipeFile.ScanStops | FiledRecipes/FiledRecipes.Domain/RecipeRepository.cs:142-207 | once a scan has failed, the lines after it are not read |
| RecipeFile.FailureKeepsPrefix | FiledRecipes/FiledRecipes.Domain/RecipeRepository.cs:142-205 | a failed load stops at a non-blank line k; the lines before k read without error to the state and commits the load ends with, and line k fails from that state with the reported error |
| RecipeFile.IngredientLine | FiledRecipes/FiledRecipes.Domain/RecipeRepository.cs:237 | an ingredient written as amount;measure;name; it has no contract of its own, and IngredientLineSplits and IngredientLineIsData state that Load reads it back |
| RecipeFile.RecipeLines | FiledRecipes/FiledRecipes.Domain/RecipeRepository.cs:229-247 | the lines written for one recipe; it has no contract of its own, and ScanRecipe states that Load reads them back as exactly that recipe |
| RecipeFile.SaveLines | FiledRecipes/FiledRecipes.Domain/RecipeRepository.cs:227-250 | the lines written for the whole list, one recipe's lines after another (SaveLinesAppend); ScanSaved and RoundTrip state that Load reads them back as exactly that list |
| RecipeFile.IngredientLineSplits | FiledRecipes/FiledRecipes.Domain/RecipeRepository.cs:237 | an ingredient line written from fields without ';' splits back into exactly amount, measure and name |
| RecipeFile.IngredientLineIsData | FiledRecipes/FiledRecipes.Domain/RecipeRepository.cs:237 | a written ingredient line is never blank and never a marker line |
| RecipeFile.ScanRecipe | FiledRecipes/FiledRecipes.Domain/RecipeRepository.cs:227-250 | the block written for one writable recipe, read from any state, appends exactly that recipe, reads every line and ends in the Instruction status |
| RecipeFile.ScanSaved | FiledRecipes/FiledRecipes.Domain/RecipeRepository.cs:227-250 | the lines written for writable recipes, read from any state, append exactly those recipes in order, with one commit per line and no error |
| RecipeFile.RoundTrip | FiledRecipes/FiledRecipes.Domain/RecipeRepository.cs:227-244 | reading back the file written for a non-empty list of writable recipes fails on no line, commits, and parses exactly that list |
| Repository.FirstIndex | FiledRecipes/FiledRecipes.Domain/RecipeRepository.cs:96 | the position found holds an equal entry, and no earlier entry is equal |
| Repository.RemoveFirst | FiledRecipes/FiledRecipes.Domain/RecipeRepository.cs:98 | removing a value that is not in the list leaves the list unchanged |
| Repository.RemoveFirstSplits | FiledRecipes/FiledRecipes.Domain/RecipeRepository.cs:93-98 | removing a value that is in the list cuts out exactly its first occurrence; the entries before and after keep their order |
| Repository.RemoveFirstCount | FiledRecipes/FiledRecipes.Domain/RecipeRepository.cs:98 | removal takes exactly one copy of the value out of the multiset when there is one, and the length drops by one exactly then |
| Repository.RemoveEntryAt | FiledRecipes/FiledRecipes.Domain/RecipeRepository.cs:107-110 | deleting the entry at an index by value removes that position when no earlier entry is equal to it, and an earlier position otherwise |
| Repository.SaveThenLoad | FiledRecipes/FiledRecipes.Domain/RecipeRepository.cs:142-205 | loading the file saved from a non-empty, name-sorted list of writable recipes succeeds and commits that same list |
| Repository.ReadLine | FiledRecipes/FiledRecipes.Domain/RecipeRepository.cs:145-198 | one non-blank line handled as the loop body does agrees with Step |
| Repository.RecipeRepository.constructor | FiledRecipes/FiledRecipes.Domain/RecipeRepository.cs:57-63 | a new repository holds no recipes, is unmodified and has raised no event |
| Repository.RecipeRepository.GetAll | FiledRecipes/FiledRecipes.Domain/RecipeRepository.cs:69-73 | returns the stored recipes' values in stored order and changes nothing |
| Repository.RecipeRepository.GetAt | FiledRecipes/FiledRecipes.Domain/RecipeRepository.cs:80-84 | returns the stored recipe at an index inside the list; an index outside it is OutOfRange; nothing changes |
| Repository.RecipeRepository.Delete | FiledRecipes/FiledRecipes.Domain/RecipeRepository.cs:90-101 | removes the first stored recipe equal to the argument, if any; the list is marked modified and the event is raised in every case |
| Repository.RecipeRepository.DeleteAt | FiledRecipes/FiledRecipes.Domain/RecipeRepository.cs:107-110 | an index outside the list fails with list, flag and events untouched; otherwise it acts as Delete of the recipe stored there |
| Repository.RecipeRepository.Load | FiledRecipes/FiledRecipes.Domain/RecipeRepository.cs:130-217 | the outcome is the error of the first failing line, if any; each line read without error raises one event; after at least one commit the list is the stable name sort of the recipes parsed before the stop and is unmodified; with no commit, list and flag are untouched |
| Repository.RecipeRepository.Save | FiledRecipes/FiledRecipes.Domain/RecipeRepository.cs:220-256 | writes, for each stored recipe in order, the recipe marker and name, the ingredients marker and one amount;measure;name line per ingredient, the instructions marker and the instructions, with no blank lines; the list is kept, marked unmodified, and one event is raised |

## Left out

- File access (`StreamReader`/`StreamWriter`, lines 137 and 223) is not
  modelled: Load takes the file's lines and Save returns them. How the reader
  breaks a file into lines, I/O exceptions, handle release and a write that
  stops halfway are outside the model.
- The file path and `Path.GetFullPath` in the constructor (line 60) are left
  out, because this is a library call on the file system. Only the empty
  initial list (line 62) is modelled.
- `OnRecipesChanged` (lines 116-129) is a counter of raised events. Subscribers,
  the null check on the handler and exceptions thrown by handlers are not
  modelled.
- `OrderBy(r => r.Name)` compares names culture-sensitively. The model uses the
  ordinal character order, because culture comparison cannot be expressed
  here. Stability, sortedness and permutation are proved for that order.
- `Clone()` (lines 72 and 83) and the lazy `Select` in GetAll are not
  modelled: recipes are values, so a caller can never change the stored list
  through what it gets back.
- The `Recipe` and `Ingredient` classes, including `Recipe.Equals` and
  `Recipe.Add`, are not part of this model. A recipe is a value with a name,
  ingredients and instructions. Equality is value equality. `new Recipe(line)`
  gives that name with empty lists. `Add` appends.
- Load mutates the current recipe in place, and that recipe is shared with the
  list committed by the previous line. Every such mutation is followed by a
  commit in the same iteration, and names never change after creation. The
  model therefore rebuilds the last entry instead of sharing it.
- Delete: a null argument is not representable. In the code it finds no
  match, which is the no-match path the model covers.
- `RecipeView.cs` (console rendering) is presentation and is not part of this
  model.
- RecipeFile.RoundTrip: requires recipes the format can carry. Names and
  instructions must be neither blank nor marker lines, ingredient fields must
  contain no ';', and no written string may hold a line break ('\n' or
  '\r'), which the reader would split into two lines. Other recipes are
  written by Save but read back differently. Load's input lines are not
  constrained to be free of line breaks in the model; in the code they are,
  because `ReadLine` splits the file at them.
- Repository.SaveThenLoad: requires a non-empty list. Saving an empty list
  writes no lines, and loading no lines commits nothing.
