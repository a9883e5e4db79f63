/** Values shared by every part of the model: roles, digests, database rows,
    session records, and stored values with an expiry deadline.
    All instants and deadlines are integer milliseconds. */
module Domain {

  datatype Option<+T> = None | Some(value: T)

  datatype Role = User | Admin

  /** The SHA-256 digest of a refresh-token validator, in the usual symbolic form:
      a free constructor, so two digests agree exactly when their validators do. */
  datatype Digest = Digest(validator: string)

  datatype UserRow = UserRow(name: string, username: string, passwordHash: string, email: string, role: Role)

  datatype UserPublic = UserPublic(id: string, name: string, username: string, email: string, role: Role)

  function ToPublicUser(id: string, row: UserRow): UserPublic {
    UserPublic(id, row.name, row.username, row.email, row.role)
  }

  datatype SessionRecord = SessionRecord(
    userId: string,
    role: Role,
    refreshTokenHash: Digest,
    previousRefreshTokenHash: Option<Digest>,
    rotatedAt: Option<int>,
    createdAt: int,
    expiresAt: int,
    absoluteExpiresAt: int)

  /** A public profile shows these five fields of the row and no other: it does not depend on the password. */
  lemma PublicFields(id: string, row: UserRow, passwordHash: string)
    ensures var shown := ToPublicUser(id, row);
            && shown.id == id && shown.name == row.name && shown.username == row.username
            && shown.email == row.email && shown.role == row.role
            && shown == ToPublicUser(id, row.(passwordHash := passwordHash))
  {
  }

  /** A stored value together with the instant at which its key expires. */
  datatype Slot<+V> = Slot(value: V, deadline: int)

  const SESSION_IDLE_TTL_SECONDS := 7 * 24 * 60 * 60
  const SESSION_ABSOLUTE_TTL_SECONDS := 30 * 24 * 60 * 60
  const REFRESH_GRACE_PERIOD_MS := 30 * 1000
  const PROFILE_TTL_SECONDS := 3600

  function Min(a: int, b: int): int {
    if a <= b then a else b
  }

  /** Milliseconds to seconds, rounded up; Dafny's division by a positive number floors. */
  function CeilSeconds(ms: int): (s: int)
    ensures ms <= s * 1000 < ms + 1000
  {
    -((-ms) / 1000)
  }
}
