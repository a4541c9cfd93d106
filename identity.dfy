/** The identity provider's view of the signed-in account (a FirebaseUser). */
module Identity {
  import opened Wrappers

  /** `uid` is never null; the profile display name and the email may be. */
  datatype User = User(uid: string, displayName: Option<string>, email: Option<string>)
}
