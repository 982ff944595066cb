/** Values passed between the extractor's stages. `None` stands for Python's
    `None`; `Outcome` records whether a stage returned or raised the
    `IndexError` that indexing an empty span raises. */
module Options {

  datatype Option<+T> = None | Some(value: T)

  datatype Outcome<+T> = Returned(value: T) | IndexError
}
