/** Small result types shared by every module of the blog model. */
module Wrappers {

  /** An optional value: a nullable foreign key, an anonymous viewer, a lookup that found nothing. */
  datatype Option<+T> = None | Some(value: T)

  /** The outcome of a view that may end in Django's `get_object_or_404` raising HTTP 404. */
  datatype Response<+T> = Ok(value: T) | NotFound
}
