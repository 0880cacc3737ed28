/** The records the document store persists. The Mongoose schemas behind them
    (models/blog and models/user) are not part of this model; only the fields
    the controllers read and write are. */
module Models {
  import opened Values

  /** Identifier the store assigns on insertion. */
  type Id = nat

  /** A persisted blog entry. Nothing constrains the sign of `likes`. */
  datatype Blog = Blog(id: Id, title: string, author: string, url: string, likes: int)

  /** A persisted user: there is no field for a plaintext password. */
  datatype User = User(username: string, name: Option<string>, passwordHash: string)
}
