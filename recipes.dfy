/** The values the repository stores. The recipe and ingredient classes are
    modelled as values: a read hands out a value, so no caller can reach the
    stored entries (what the repository's Clone calls achieve). */
module Recipes {

  /** One ingredient line: amount, measure and name, kept as text. */
  datatype Ingredient = Ingredient(amount: string, measure: string, name: string)

  /** A recipe: its name, then its ingredients and instructions in file order. */
  datatype Recipe = Recipe(name: string, ingredients: seq<Ingredient>, instructions: seq<string>)

}
