# Coma core entities and publisher buffer, in Dafny

This project models four small pieces of the Coma configuration-management
backend (written in Go) and proves properties of them:

- the bounded FIFO message buffer behind the local pub/sub (`publisher`):
  a fixed capacity, `publish` of what a producer function made, `close`, and
  `retrieveMessages`, which drains every buffered payload into strings;
- the application-key entity: the existence check, key generation over a
  62-character alphabet, filter validation and the query filter;
- the user entity: user-type parsing, the empty and admin checks, the
  HTTP-method to permission mapping, `Update` and the query filter;
- the user-auth entity: session creation, token expiry and the query filter.

The query filters build document-store criteria; `Clover.Criteria` models
them as `Eq(field, value) | And(left, right)` and a nil criteria as `None`.
The three filters share one loop, which folds the appended equalities from
the left with `And`; it is modelled once, as `Clover.Fold`. To say what a
filter selects, `Clover.Matches` reads a criteria as a predicate over a
document (field name to string value).

Files: `wrappers.dfy` (Option, Result, Error), `clover.dfy`, `publisher.dfy`,
`application_key.dfy`, `user.dfy`, `auth.dfy`.

The publisher's Go channel is modelled sequentially as the class
`Pubsub.Publisher` with a `seq` buffer, a constant capacity and a `closed`
flag. A send that would block (buffer full) and a send after close (a panic)
are preconditions of `Publish`; closing twice (a panic) is a precondition of
`Close`; the drain is only called on a closed buffer, since ranging over a
channel ends only then. The producer function is replaced by its outcome
(`Result<Payload>`), and a payload reader by `Readable(content)` or
`Unreadable(failure)`. When a payload fails to read, the drain stops there:
the payloads up to and including the failing one have been taken off the
buffer (`Pubsub.Consumed`), the rest stay.

`Pubsub.PublishCloseDrainScenario` is a client of the publisher proved from
its contracts alone: a failed production leaves a capacity-2 buffer empty,
two payloads fill it, and after close the drain yields `["x", "y"]` and
empties it.

User and application keys are classes, because `Update` and `GenerateKey`
change the receiver in place; the filters and the session record are values.

## Model

| member | source | states |
|---|---|---|
| Clover.Fold | src/domain/entity/user.go:153-168 | the loop shared by all three filters: nil for no terms, otherwise the terms folded left with `And` |
| Clover.ConjoinShape | src/domain/entity/user.go:159-166 | folding equalities gives a left-nested criteria whose leaves are those equalities in append order |
| Clover.LeftNestedUnique | src/domain/entity/user.go:159-166 | the left-nested shape is determined by its leaves, so shape plus leaves pin the filter down exactly |
| Clover.MatchesConjoin | src/domain/entity/user.go:165 | a left-nested conjunction selects exactly the documents every term selects |
| Clover.TermsSnoc | src/domain/entity/user.go:141-151 | appending a field adds its equality only when the field's value is non-empty |
| Clover.TermsMeaning | src/domain/entity/user.go:141-151 | the appended terms are equalities, there are none iff every value is empty, and they select what the non-empty fields ask for |
| Clover.FilterOfFields | src/domain/entity/user.go:138-169 | the filter of a field list is left-nested, its leaves are the terms in order, and it selects exactly the documents holding every non-empty value |
| Pubsub.Publisher.constructor | internal/x/pubsub/publisher.go:16-22 | a new publisher has the requested capacity, an empty buffer and is open; a negative capacity is excluded |
| Pubsub.Publisher.Publish | internal/x/pubsub/publisher.go:24-32 | a producer error is returned unchanged with the buffer untouched; otherwise exactly one payload is appended at the end and nil returned; requires room and an open buffer only when a payload is sent |
| Pubsub.Publisher.Close | internal/x/pubsub/publisher.go:34-36 | closes the buffer without touching its payloads; closing twice is excluded |
| Pubsub.Publisher.RetrieveMessages | internal/x/pubsub/publisher.go:38-51 | on a closed buffer, returns `Drain` of the buffered payloads, removes exactly the payloads the drain consumed, and empties the buffer when it succeeds |
| Pubsub.Publisher.Capacity | internal/x/pubsub/publisher.go:53-55 | the capacity fixed at construction (a constant field, so it never changes; the constructor states it equals the requested capacity) |
| Pubsub.Publisher.Len | internal/x/pubsub/publisher.go:57-59 | the length never exceeds the capacity |
| Pubsub.DrainReadable | internal/x/pubsub/publisher.go:40-50 | a drain succeeds iff every payload is readable, and then yields one message per payload, each its content, in publish order, consuming all |
| Pubsub.DrainFails | internal/x/pubsub/publisher.go:42-45 | the first unreadable payload's error is the drain's result, with nothing collected, and the drain consumed the payloads up to and including it |
| Pubsub.PublishThenDrain | internal/x/pubsub/publisher.go:30-50 | draining published strings yields the same strings in publish order |
| Pubsub.PrefixedAppend | internal/x/pubsub/publisher.go:47 | collecting messages in two steps is collecting their concatenation |
| ApplicationKeyEntity.CharsetIsAlphanumeric | src/domain/entity/application_key.go:11 | the key alphabet has 62 characters, all ASCII letters or digits |
| ApplicationKeyEntity.IndexOf | src/domain/entity/application_key.go:28 | finds the first position of a character in the alphabet |
| ApplicationKeyEntity.DrawsFor | src/domain/entity/application_key.go:23-31 | every string over the alphabet is a key the generator can produce, under suitable draws below 62 |
| ApplicationKeyEntity.ApplicationKey.Exist | src/domain/entity/application_key.go:19-21 | true iff id, application id and key are all non-empty (the definition; `GenerateKey` states how it changes) |
| ApplicationKeyEntity.ApplicationKey.GenerateKey | src/domain/entity/application_key.go:23-31 | the new key has exactly `length` characters, the i-th being the alphabet letter of the i-th draw (so alphanumeric); id and application id are unchanged; the key then exists iff id and application id are set and length is positive |
| ApplicationKeyEntity.FilterApplicationKey.Validation | src/domain/entity/application_key.go:55-60 | true when validation is skipped, otherwise iff the application id is non-empty (the definition; `Filter` states its effect) |
| ApplicationKeyEntity.FilterApplicationKey.Filter | src/domain/entity/application_key.go:62-92 | nil when validation fails or both fields are empty; otherwise left-nested over `applicationId` then `key` equalities, one per non-empty field, selecting exactly the matching documents; `And(Eq(applicationId), Eq(key))` with both, a single `Eq` with one |
| UserEntity.NewUserType | src/domain/entity/user.go:20-36 | "root" and "user" parse to themselves without error, every other string is the unknown-type error |
| UserEntity.User.Empty | src/domain/entity/user.go:52-54 | true iff id and user name are both empty (the definition; `Update` states how it changes) |
| UserEntity.User.UserAdmin | src/domain/entity/user.go:56-58 | a user is an admin iff its stored type parses as root |
| UserEntity.User.HasRbacAccess | src/domain/entity/user.go:60-74 | GET always allowed; POST, PUT/PATCH and DELETE as the permission record's create, update and delete flags; everything else denied; the record must be present for the write methods only |
| UserEntity.RbacAccessMonotone | src/domain/entity/user.go:60-74 | a user whose permissions include another's has at least the other's access |
| UserEntity.User.Update | src/domain/entity/user.go:76-78 | copies only the user name; id, password, type and permissions are unchanged; afterwards the user is empty iff its id and the other user's name are empty |
| UserEntity.FilterUser.Filter | src/domain/entity/user.go:138-169 | nil iff id, user name and type are all empty; otherwise left-nested over `_id`, `username`, `userType` equalities in that order, one per non-empty field, selecting exactly the matching documents |
| AuthEntity.CreateUserAuth | src/domain/entity/auth.go:27-33 | the session carries the given user id and the fresh id, no tokens, and zero-time expiries |
| AuthEntity.UserAuth.RefreshTokenExpired | src/domain/entity/auth.go:35-37 | true iff the refresh token's expiry is strictly before now (the definition; the expiry lemmas state its properties) |
| AuthEntity.UserAuth.AccessTokenExpired | src/domain/entity/auth.go:39-41 | true iff the access token's expiry is strictly before now (the definition; the expiry lemmas state its properties) |
| AuthEntity.ExpiryIsStrict | src/domain/entity/auth.go:35-41 | a token whose expiry equals now is not yet expired |
| AuthEntity.ExpiryIsPermanent | src/domain/entity/auth.go:35-41 | a token expired at some instant is expired at every later one |
| AuthEntity.NewSessionIsExpired | src/domain/entity/auth.go:27-41 | a freshly created session's tokens count as expired at any instant after the zero time |
| AuthEntity.FilterUserAuth.Filter | src/domain/entity/auth.go:62-89 | nil iff access token and user id are both empty; otherwise left-nested over `accessToken` then `userId`, selecting exactly the matching documents; `And(Eq(accessToken), Eq(userId))` with both, a single `Eq` with one |

## Left out

- Channel blocking and wake-up: a full buffer, a send after close and a
  second close are preconditions; concurrent publishers and drainers are not
  modelled, and the drain runs only on a closed buffer.
- The producer function and payload readers: replaced by their outcomes.
- Two Go panics are outside the model's input types: `GenerateKey` with a
  negative length (`make` panics; the length is a `nat`), and a producer that
  returns neither payload nor error, which buffers a nil reader that makes
  the drain panic (`Result<Payload>` has no such case).
- The random source of `GenerateKey`: replaced by a supplied sequence of
  draws below 62; seeding from the clock is not modelled.
- The UUID of `CreateUserAuth`: passed in as `newId`.
- Time: an instant is an integer count of nanoseconds since the Unix epoch;
  Go's zero time is January 1 of year 1; monotonic clock readings are not
  modelled.
- The store library's own evaluation of criteria: `Clover.Matches` is the
  reading this model gives them, used only to state what a filter selects.
- `NewUserType`: on error Go also returns the empty user type; the model
  returns only the error.
- Password hashing and comparison (`PatchUserPassword`, `HashPassword`,
  `ComparePassword`), JWT construction and signing (`LocalUserAuthToken`,
  `GenerateToken`), and the JSON round trips of `MapStringInterface`: foreign
  libraries.
- The topic registry and the concurrent task runner: their code is not part
  of this model.
- The service layers, HTTP handlers, configuration loading and repository
  queries: they only call into the entities through interfaces.
