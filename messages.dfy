/**
 * The user-facing error messages, character for character as the resolvers
 * write them (including their typos: the missing closing parenthesis on
 * postCreate's message, "tilte", the stray trailing quote, "deos").
 */
module Messages {

  /** postCreate in src/resolvers/Mutation/post.ts. */
  const UnauthenticatedOnCreate: string := "Forbidden access (unauthenticated"
  /** postUpdate, postDelete, postPublish, postUnpublish. */
  const Unauthenticated: string := "Forbidden access (unauthenticated)"

  const MissingTitleOrContent: string := "You must provide a tilte and a content to create a post"
  const NothingToUpdate: string := "Need to have at least one field to update'"
  /** postUpdate (both variants) and the legacy postDelete. */
  const PostDeosNotExist: string := "Post deos not exist"
  /** postDelete in src/resolvers/Mutation/post.ts. */
  const PostDoesNotExist: string := "Post does not exist"

  const InvalidEmail: string := "invalid email"
  const InvalidPassword: string := "invalid password"
  const InvalidNameOrBio: string := "Invalid name or bio"
  /** signin: no user has the given email. */
  const UnknownEmail: string := "Invalid credentials"
  /** signin: the password does not match the stored hash. */
  const WrongPassword: string := "Invalid Credentials"
}
