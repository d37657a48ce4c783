/**
 * The records of src/types.ts. ISO date strings become integer timestamps
 * (milliseconds since the epoch, as `new Date(s).getTime()` gives), an optional
 * property becomes an `Option`, and `Record<string, string[]>` becomes a map.
 */
module Model {
  import opened Common

  type Id = string
  type UserId = string
  type Emoji = string

  /** emoji -> ids of the users who reacted with it (a JSON array, so ordered and possibly repeating). */
  type Reactions = map<Emoji, seq<UserId>>

  datatype Role = AdminRole | UserRole

  datatype Category = Family | Friend | OtherCategory

  datatype User = User(
    id: UserId,
    name: string,
    password: string,
    role: Role,
    isBlocked: bool,
    category: Category)

  datatype Photo = Photo(
    id: Id,
    url: string,
    description: Option<string>,
    albumId: Id,
    createdAt: int,
    tags: seq<string>)

  datatype Comment = Comment(
    id: Id,
    photoId: Id,
    author: string,
    text: string,
    createdAt: int,
    parentId: Option<Id>,
    reactions: Reactions)
}
