/** Option and Result types shared by the whole model, plus the error
    conditions the tool raises as exceptions. */
module Wrappers {

  datatype Option<+T> = None | Some(value: T)

  /** Every `throw std::runtime_error(...)` the core can reach, by cause. */
  datatype Error =
    | GlyphDataError            // "Error extracting glyph data"
    | ImageLoadError(name: string)  // "Error loading input image:" + name
    | WhitePixelMissing         // "Where is the whitepixel?"
    | UnknownOutputFormat       // "Unknow output file format"

  datatype Result<+T> = Ok(value: T) | Err(error: Error)
}
