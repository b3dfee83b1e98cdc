# Entity table and command reader of main.c, modelled in Dafny

This project models the early version of the relational-database exercise in
`main.c`. The program reads commands from standard input, one per line, and
keeps a hash table of entity names. The model has four parts:

- **Hash** (`hash.dfy`). The string hash `hash` uses C `unsigned int`
  arithmetic, written out as reduction modulo 2^32. `ComputeHash` is the
  loop, and it is proved equal to the recursive `HashSpec`. The lemmas prove
  the bucket bound for names of two or more characters. They also prove its
  failure for one-character names below `'_'`, because the final `% mod` is
  commented out. When no character lies below `'_'`, the bucket is the
  loop's own sum of `c - '_'` in exact arithmetic, reduced modulo 113; a
  character below `'_'` can make the wrap-around modulo 2^32 break that. The
  hash is not the sum its doc comment describes (ASCII values weighted by
  powers of the multiplier), and a lemma gives a name where the two differ.
- **Entities** (`entities.dfy`). The global `entityTable` is the class
  `EntityTable`: an array of 113 chains, each chain a sequence with its head
  at index 0. `AddEntity` and `DeleteEntity` update the array in place, and
  they are proved against the functions `AddedTable` and `DeletedTable`.
  The chain walks are modelled as written. Both stop at the first node whose
  name *differs* from the argument. `addEntity` then returns without adding,
  and `deleteEntity` blanks that node's name. Their comments ("element
  already exists", "element exists", "adds a new entity to the table, if
  absent") describe the opposite test. The model follows the code, and the
  lemmas `AddDepartsFromComment`, `DeleteDepartsFromComment` and
  `AddTwiceDuplicates` show where the two differ.
- **Parser** (`parser.dfy`). The line reader `getCommand` works over an input
  character sequence with a cursor. Reading past the end yields an EOF
  character that no 7-bit character equals. The function `Scan` specifies one
  call, and `GetCommand` is the character-by-character method proved against
  it. `ScanFormatLine` proves the round trip: a line written as `command
  "e1" "e2" "rel"` is read back as its command and names.
- **Dispatch** (`dispatch.dfy`). `executeCommand` selects the operation.
  Only `addent` and `delent` change the table. The relation operations and
  the report have empty bodies in this version.

## Model

| member | source | states |
|---|---|---|
| Hash.U32 | main.c:150-154 | The conversion of an `int` to `unsigned int` lies below 2^32 and is congruent to its argument modulo 2^32. |
| Hash.Step | main.c:154 | One loop iteration leaves a value below the modulus. |
| Hash.HashSpec | main.c:149-158 | The hash of a name is below 2^32. For two or more characters it is below the modulus. A one-character name keeps its unreduced start value `(c - '_') mod 2^32`. |
| Hash.ComputeHash | main.c:149-158 | The hash loop computes `HashSpec`, so its result is below the modulus for names of two or more characters. |
| Hash.Bucket | main.c:199 | The bucket index of a name of two or more characters is below 113. |
| Hash.IndexableIff | main.c:150-157 | A valid name has a bucket inside the table if and only if it has two or more characters or its single character is not below `'_'`. |
| Hash.OneCharNameOutOfRange | main.c:150-157 | The valid name "A" hashes to 2^32 - 30, outside the table. |
| Hash.BucketIsShiftedSum | main.c:149-158 | With no character below `'_'`, the bucket of a name of two or more characters is the loop's exact-arithmetic sum of `c - '_'` (Horner's rule with the multiplier) modulo 113. |
| Hash.WrapAroundDepartsFromShiftedSum | main.c:149-158 | A character below `'_'` can make the wrap-around modulo 2^32 move the bucket away from that sum: "AB" goes to 58, not 42. |
| Hash.BucketDepartsFromDocComment | main.c:134-158 | The hash is not the doc comment's sum of ASCII values weighted by powers of the multiplier, modulo 113: "__" goes to bucket 0, while that sum gives 81. |
| Entities.FirstOther | main.c:202-206 | The chain walk stops at the first node whose name differs from the argument. Every earlier node carries the argument. |
| Entities.Added | main.c:202-211 | The chain after `addEntity` gets the name as a new head, followed by the old chain, exactly when every node already carries that name. Otherwise the chain is unchanged. |
| Entities.Deleted | main.c:218-224 | The chain after `deleteEntity` keeps its length. Exactly the first node whose name differs from the argument is blanked, and every other name is kept. A chain made only of the argument is unchanged. |
| Entities.CountUpdate | main.c:23 | Replacing one bucket changes the node count by the difference of the bucket lengths. |
| Entities.AddedTable | main.c:198-212 | `addEntity` changes only the name's bucket. It adds one node exactly when every node in that bucket carries the name, and no node otherwise. It keeps every name in the bucket its hash selects. |
| Entities.DeletedTable | main.c:214-225 | `deleteEntity` changes only the name's bucket. It keeps every bucket's length and the node count, and it keeps every name in its own bucket. |
| Entities.OnlyInOwnBucket | main.c:199-200 | In a well-placed table a non-empty name can only be found in the bucket its hash selects. |
| Entities.AddTwiceDuplicates | main.c:202-211 | Adding a name twice to a chain that holds only that name stores it twice. |
| Entities.DeleteKeepsName | main.c:218-224 | Deleting a name never removes that name from its chain. |
| Entities.AddDepartsFromComment | main.c:196-206 | An absent name is not added to a non-empty chain, and a present name can be added again. |
| Entities.DeleteDepartsFromComment | main.c:218-222 | When the name is absent from a non-empty chain, `deleteEntity` blanks the chain's head. |
| Entities.CountEmpty | main.c:23 | A table of empty chains holds no nodes. |
| Entities.EntityTable.constructor | main.c:23 | The zero-initialised table has 113 empty chains and no nodes. |
| Entities.EntityTable.AddEntity | main.c:198-212 | Updates the array in place to `AddedTable` of the old contents, and keeps the table invariant. |
| Entities.EntityTable.DeleteEntity | main.c:214-225 | Updates the array in place to `DeletedTable` of the old contents, and keeps the table invariant. |
| Parser.CharAt | main.c:79 | `getchar` returns the next input character, or EOF past the end; a quote or a newline is only ever read from the input itself, so EOF never ends the reading loops. |
| Parser.Command | main.c:78-80 | When six characters remain, the command is exactly the input slice of six characters at the cursor. |
| Parser.FindFrom | main.c:97-124 | Finds the first occurrence of a character at or after a position, or reports that there is none. |
| Parser.Field | main.c:94-101 | A name read by a do-while loop ends just before the next `"`. Reading resumes after that quote. The name holds no quote and fits its buffer. There is no name exactly when no quote follows, or when the name would not fit. |
| Parser.FieldText | main.c:96-101 | The name read is exactly the input between its start and the closing quote. |
| Parser.Finish | main.c:124 | The closing loop stops just past the next newline, and nothing before it is a newline. It never stops when no newline follows. |
| Parser.Scan | main.c:75-126 | A line is "end" exactly when its first three characters are `e`, `n`, `d`, and then exactly six characters are consumed. Any other line ends just past its newline. |
| Parser.Arguments | main.c:88-125 | After a command other than "end", the reader returns the same command. All names are empty for "report", and the second and relation names are empty for one-name commands. The cursor ends just past the newline. |
| Parser.RelationArguments | main.c:103-121 | For "addrel" and "delrel", the second entity and the relation name follow the first name in turn. |
| Parser.ReadName | main.c:94-101 | The do-while loop reads exactly the name `Field` specifies and stops after its quote. |
| Parser.SkipLine | main.c:124 | The closing loop consumes input up to and including the next newline. |
| Parser.ReadArguments | main.c:88-125 | The argument reading of getCommand yields exactly what `Arguments` specifies. |
| Parser.GetCommand | main.c:75-126 | Returns 1 on an "end" line, with the cursor six characters on and the name buffers unchanged. Otherwise it returns 0 with the command, the names and the cursor that `Scan` specifies. |
| Parser.FieldAt | main.c:96-101 | A quote-free name that fits its buffer, followed by a quote, is read back as itself. |
| Parser.ScanFormatLine | main.c:75-126 | A line `command "e1" "e2" "rel"` is read back as its command and the names that command takes, with the cursor just past the line. |
| Parser.ScanReportLine | main.c:93-124 | A "report" line is read with empty names. |
| Parser.ScanEntityLine | main.c:93-124 | A one-name line is read back as its command and name. |
| Parser.ScanRelationLine | main.c:93-124 | A three-name line is read back as its command and three names. |
| Dispatch.Executed | main.c:176-237 | Only "addent" and "delent" change the table, and only the name's bucket. The node count grows by at most one, and only for "addent". Names stay in their own buckets. |
| Dispatch.ExecuteCommand | main.c:176-193 | Dispatches on the command and updates the table in place to `Executed`, keeping the table invariant. |

## Left out

- `main`: the redirection of standard input to a fixed debug file and the loop that alternates `getCommand` and `executeCommand`. It is process I/O.
- `malloc` and `strcpy`. Chains are sequences, a new node is a new head, and a blanked node holds the empty name.
- Parser.Scan: input on which `getchar` would return EOF forever (no closing quote or newline), or a name that overflows its 100-character buffer, gives `None`. `GetCommand` requires `Some`, so the non-terminating and overflowing runs are not modelled.
- Entities.EntityTable.AddEntity: requires a valid name whose hash lies inside the table. Each excluded class has its own reason:
  - an empty name makes `hash` read past the terminating NUL;
  - a one-character name below `'_'` hashes outside `entityTable`, which the source then indexes;
  - a name of 100 or more characters has already overflowed the reader's buffer and would overflow the node's buffer in `strcpy`;
  - a name with a character above 127 is fine for the source, but the model covers only 7-bit ASCII (see the line on signed `char`).
- Entities.EntityTable.DeleteEntity: the same requirement as `AddEntity`, for the same reasons (without the `strcpy`, the overflow is the reader's).
- Dispatch.ExecuteCommand: requires such a name for "addent" and "delent" only.
- The bodies of `addRelation`, `deleteRelation` and `printReport` are empty in this version, and they are modelled as empty methods. No relation index or report format exists in this source to model.
- Signed `char`: characters are 7-bit ASCII, so no sign extension of bytes above 127 is modelled.
- The comments' claims about hash quality and collision rates (main.c:7, 136-137), because they describe no behaviour.
