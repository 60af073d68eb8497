/** Rust's `Option<T>`, used for the fetched data, `Game::time`, `Meta::next_page`
    and the results of the parsers that read rendered text back. */
module Optional {

  datatype Option<+T> = None | Some(value: T)

}
