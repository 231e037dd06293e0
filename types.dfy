/** Record types shared by the hook and the grid (src/types/index.ts). */
module MovieTypes {

  datatype Option<+T> = None | Some(value: T)

  /** One search hit. Every field is an opaque string; nothing parses or checks it. */
  datatype Movie = Movie(Title: string, Year: string, imdbID: string, Type: string, Poster: string)

  /** One page of remote search results. `Response` is carried but never read. */
  datatype MovieApiResponse = MovieApiResponse(Search: seq<Movie>, totalResults: int, Response: bool)

  /** The grid keys its rows by imdbID; nothing in the program enforces this. */
  ghost predicate UniqueIds(rows: seq<Movie>)
  {
    forall i, j :: 0 <= i < j < |rows| ==> rows[i].imdbID != rows[j].imdbID
  }
}
