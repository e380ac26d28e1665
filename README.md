# To-do service: handlers, payload validation and error responses

A model, in Dafny, of the core of a small to-do CRUD service. The service
keeps one table, `todos`, whose rows hold an id, a title, an optional
description, a completed flag, and creation and modification times. The
service has five request handlers: create, list, fetch by id, update and
delete. The model covers:

- `models.dfy`, module `Models` (src/models.rs): the `Todo` record, the
  `CreateTodo` and `UpdateTodo` payloads, and the rules that
  `#[derive(Validate)]` attaches to them. It also has the "simple" text form
  of a record's id: 32 lower-case hex digits, with its inverse and both
  round trips.
- `errors.dfy`, module `Errors` (src/errors.rs): the `AppError` variants,
  `AppResult`, and `into_response`, which maps each variant to a status
  code and a `{"error": message}` body.
- `handlers.dfy`, module `Handlers` (src/handlers.rs): a class `TodoStore`
  whose field `table: map<Uuid, Todo>` stands for the `todos` table. It has
  one method per handler. Each mutating method states the whole new table
  in terms of the old one, on every path. `Valid()` is the table's invariant:
  every row is filed under its own id and has a non-empty title. Every
  method keeps it.

The fresh id (`Uuid::new_v4`) and the current time (`Utc::now`) are method
parameters. A UUID is a natural number below 16^32 (2^128). A timestamp is
an integer that the model only copies and compares.

Points where the code behaves other than one might expect, and which the
model follows:

- One might expect an update that omits `description` to leave the stored
  description unchanged. The code clears it (src/handlers.rs:162).
  `Option<String>` cannot tell an absent field from an explicit `null`, so
  both clear it. `Handlers.EmptyUpdateClearsDescription` states this.
- One might expect `created_at <= updated_at` to hold always, and an update
  to move `updated_at` forward. The code only writes the current time
  (src/handlers.rs:164). Nothing orders two readings of the clock, so the
  model makes neither claim.
- There is no error for a malformed id in the handlers
  (src/errors.rs:11-26). A malformed path id is rejected by the web
  framework's extractor before any handler runs.
- A fresh id that collides with a stored one is not ruled out by a
  precondition. The insert then breaks the primary key, and `create_todo`
  returns the database error (`SqlxError`) with the table unchanged.

## Model

| member | source | states |
|---|---|---|
| `Models.CheckRules` | src/models.rs:22 | A field's value yields no error exactly when it meets every rule on that field. Each error names that field and the `length` code. There is at most one error per rule. |
| `Models.ValidateCreate` | src/models.rs:20-25 | A create payload is valid exactly when its title has at least one character. On failure the only error is the title's "Title cannot be empty". |
| `Models.ValidateUpdate` | src/models.rs:27-33 | An update payload is valid exactly when its title is absent or has at least one character. A failure is always a title error. |
| `Models.OnlyTitleLengthMatters` | src/models.rs:21-32 | The validation outcome depends only on the title's length. The description and the completed flag never change it, and an absent update title always passes. |
| `Models.WhitespaceTitleIsValid` | src/models.rs:22 | A title made only of spaces passes validation. |
| `Models.EmptyUpdateIsValid` | src/models.rs:27-33 | An update payload with every field absent is valid. |
| `Models.HexEncode` | src/models.rs:9 | The encoding has exactly the requested number of characters, all lower-case hex digits. |
| `Models.SimpleForm` | src/models.rs:9 | A record's id is serialised as 32 lower-case hex digits with no hyphen. |
| `Models.ParseSimple` | src/models.rs:9 | The inverse of `SimpleForm`: a string is read back as an id exactly when it is 32 hex digits, in either case. |
| `Models.ParseSimpleIgnoresCase` | src/models.rs:9 | Upper-case digits read back as the same id as their lower-case spelling, and that id's simple form is the lower-case spelling. |
| `Models.SimpleFormRoundTrip` | src/models.rs:9 | Reading back a serialised id gives the same id. |
| `Models.SimpleFormCoversAllDigitStrings` | src/models.rs:9 | Every 32-digit lower-case hex string is the serialised form of the id it reads back as, so the form is a bijection. |
| `Errors.ErrorBody` | src/errors.rs:59-61 | An error body is a JSON object whose only key is `"error"`, holding the message. |
| `Errors.IntoResponse` | src/errors.rs:28-64 | The mapping is total. Only `ValidationError` (400) and `NotFound` (404) give a 4xx status; every other variant gives 500. The validation message is "Input validation failed: " followed by the errors. Every other message is one of four fixed strings, and the not-found message is "The requested item was not found.". |
| `Errors.ServerErrorsHideDetail` | src/errors.rs:35-48 | The response to an identifier or database error is the same whatever the underlying error was. |
| `Errors.ServerErrorMessagesDistinct` | src/errors.rs:35-56 | The three 500 responses have different bodies, so the body tells which one occurred. |
| `Handlers.MergeKeepsRecordWellFormed` | src/handlers.rs:161-163 | An update keeps the record's id and creation time. With a validated payload it keeps the title non-empty. |
| `Handlers.MergeIdempotent` | src/handlers.rs:161-164 | Applying the same update payload twice at the same instant gives what applying it once gives. |
| `Handlers.EmptyUpdateClearsDescription` | src/handlers.rs:161-163 | An update with no fields keeps the title and completed flag and clears the description. |
| `Handlers.TodoStore.constructor` | src/main.rs:89-103 | A new store has an empty table. |
| `Handlers.TodoStore.Create` | src/handlers.rs:16-66 | An invalid payload gives `ValidationError` and leaves the table unchanged. A colliding id gives a database error and leaves the table unchanged. Otherwise the result is 201 and a record under the fresh id. That record has the payload's title and description, is not completed, and has both timestamps equal to `now`. The table gains exactly that record. |
| `Handlers.TodoStore.SelectAllNewestFirst` | src/handlers.rs:71-79 | The query returns every record once and nothing else, ordered by creation time, newest first. |
| `Handlers.TodoStore.GetAll` | src/handlers.rs:68-95 | The list holds one entry per stored record (an empty table gives an empty list), ordered newest first. The table is not changed. |
| `Handlers.TodoStore.GetById` | src/handlers.rs:97-131 | A stored id gives its record, and the record carries that id. An absent id gives `NotFound`. The table is not changed. |
| `Handlers.TodoStore.Update` | src/handlers.rs:133-193 | An invalid payload gives `ValidationError`, even for an absent id, and leaves the table unchanged. A valid payload for an absent id gives `NotFound` and leaves the table unchanged. Otherwise only the target record changes. Its title and completed flag are the payload's when given and the old ones otherwise. Its description is exactly the payload's. Its id and creation time stay, and its modification time becomes `now`. |
| `Handlers.TodoStore.Delete` | src/handlers.rs:195-219 | A stored id is removed, with nothing else changed, and the result is 204. An absent id gives `NotFound` and leaves the table unchanged. |
| `Handlers.DeleteIsFinal` | src/handlers.rs:195-219 | After a record is deleted, fetching it, updating it with a valid payload, and deleting it again all give `NotFound`. An invalid payload gives `ValidationError` first, as for any update. |

## Left out

- src/main.rs: environment loading, logging setup, the connection pool, the
  routes and the server loop are not modelled. The schema contributes only
  the fact that `id` is a unique key, which the map gives.
- SQL execution: the table is a map. Database failures other than a
  duplicate primary key (I/O errors, a lost connection) are not produced by
  the model, though `SqlxError` and its response are modelled.
- Reading stored ids back with `Uuid::parse_str` is taken to succeed: it
  fails only on corrupted rows. So no handler in the model returns
  `UuidParseError`. No handler returns `InternalServerError` in the source
  either.
- Randomness and the clock are the `freshId` and `now` parameters.
- Decoding JSON bodies and path ids (the web framework's extractors)
  happens before the handlers run and is not modelled.
- Concurrency: the read-then-write of `update_todo` runs outside a
  transaction. Races between requests are not modelled.
- Logging (all `tracing` calls) is not modelled.
- Serialisation of the record's other fields is not modelled. In particular
  the RFC 3339 form of the timestamps is left out.
- Models.ParseSimple: no handler reads a record back from JSON, so the
  read-back is the inverse of `SimpleForm` rather than service behaviour. It
  takes 32 hex digits in either case, as the uuid crate's simple-form
  reader does. Any other textual forms that crate may also accept are not
  modelled.
- `Errors.DisplayErrors`: the validator crate's text for a set of errors is
  approximated as one `field: message` line per error. Only the prefix
  before it is exact.
- Handlers.TodoStore.SelectAllNewestFirst: rows with equal creation times
  may come in any order, because SQLite leaves that order unspecified. The
  contract states only the newest-first order.
