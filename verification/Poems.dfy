/** The poem records read from the JSON dataset. */
module Poems {

  /** One scraped poem: its title, the collection it belongs to and its text as a list of lines. */
  datatype Poem = Poem(title: string, collection: string, text: seq<string>)
}
