/** The exceptions the taxonomy raises; each carries the source's message. */
module TaxonomyErrors {

  datatype TaxonomyError =
    | KeyNotFound
    | ApiContentTypeNotFound
    | ConvertToKeyNotFound
    | NoMediaTypeFound
  {
    function Message(): string {
      match this
      case KeyNotFound => "key not found"
      case ApiContentTypeNotFound => "api content type not found"
      case ConvertToKeyNotFound => "convert_to_key not found"
      case NoMediaTypeFound => "No media type found"
    }
  }
}
