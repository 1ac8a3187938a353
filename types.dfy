/** Records exchanged with the movie-metadata provider (TMDB) and between the pages.
    The `Option` type stands for the source's `T | null` fields. */
module Types {

  datatype Option<+T> = None | Some(value: T)

  /** The two URLs of a chosen poster: a w500 thumbnail and the original-size image. */
  datatype PosterUrls = PosterUrls(thumbnail: string, full: string)

  /** One movie as the provider's search returns it. It carries the fields the core
      reads; `bestPoster` is only ever filled by the richer server-side record. */
  datatype Movie = Movie(
    id: int,
    title: string,
    posterPath: Option<string>,
    backdropPath: Option<string>,
    releaseDate: string,
    voteAverage: real,
    runtime: int,
    bestPoster: Option<PosterUrls>)

  /** One entry of a movie's `images.posters` list. `language` is the ISO 639-1 tag
      (None for a textless poster); `voteAverage` may be missing. */
  datatype Poster = Poster(filePath: string, language: Option<string>, voteAverage: Option<real>)

  /** JavaScript truthiness of a `string | null` value. */
  predicate Truthy(s: Option<string>) {
    s.Some? && s.value != []
  }
}
