# Code name generator — verified model

A model of `codenames.py`, a command-line tool that prints a random two-word code name
(an adjective and a noun, upper-cased, joined by a space). The word lists come from local
files or from two remote JSON lists. A log of names handed out earlier can be given. An adjective
whose lower-case form is the first word of a two-word log line is not drawn again, and a noun
whose lower-case form is the second word of one is not either (each on its own, not only the
exact pair). The tool can also append the new name to the log.

The model has six modules:

- `Common` (common.dfy): `Option`, `Result` (`Crash` stands for an exception that escapes
  `main`), `FileRead` (what opening and iterating a file yields), and `Given`, which is
  Python's truthiness for an optional path.
- `Text` (text.dfy): Python's whitespace class, `strip()`, `split()` with no separator, and an
  ASCII `lower()`/`upper()`. `Strip` is characterised by its contract and `StripUnique`.
  `Split` produces only tokens, is undone by `Join` whatever whitespace separates the tokens
  (`SplitJoin`), and gives the same
  tokens as `strip().split()` (`SplitStrip`).
- `WordList` (words.dfy): `load_words_from_file` as the function `LoadWords` over the file's
  lines, the file's error paths (`LoadWordsFromFile`), and the per-category choice of
  `get_words` between the local file and the remote list (`GetWords`).
- `UsedNames` (usednames.dfy): `load_used_code_names` as a method with the source's loop
  (`LoadUsedCodeNames`), proved against the function `UsedWords`. The lemmas say which words
  the log contributes. A name of two single-token ASCII words that the tool appends is read
  back on the next run; a name whose adjective is two words joined by a space is not.
- `Sampler` (sampler.dfy): `generate_unique_code_name` as a method that grows the caller's
  `UsedSets` object in place. It keeps the source's defensive retry loop, and a ghost counter
  shows that the loop returns in its first round. `random.choice` becomes a `:|` choice of
  an index.
- `CodeNames` (codenames.dfy): `main` becomes the method `Run`, which strings the steps together.
  What the outside world yields is the `World` parameter: file contents per path, and the two
  lists the remote fetches produced. The result is a `Report`: the early stop for an empty
  list, exhaustion, the generated name with the path it is to be appended to, or an escaped
  exception.

The model follows the code where it differs from the intent its error handlers suggest:

- The tool is meant to report every failure and never raise one. In the code,
  `load_words_from_file` catches only a missing file and a decode error. `load_used_code_names`
  catches only a missing file. Any other error escapes `main` and ends the run, and so does a
  log that does not decode. The model reports both cases as `Crashed`.
- The log's lines go through `strip()` before `split()`. `SplitStrip` shows that the strip
  changes nothing, so the specification functions speak of `Split(line)`.
- The source leaves the retry loop with `return code_name`. The model sets the result and adds
  `codeName.None?` to the loop guard instead, which returns the same value.

The lemmas also prove a consequence of the log format. An adjective made of two words joined
by a space (such as `ice cold`) makes a name of three tokens. The next run skips that log line,
so neither word of the name is excluded (`MultiWordAdjectiveNotRecorded`). Any other line
without exactly two tokens is skipped the same way (`SkippedLine`). For single-token ASCII
words, `AppendedNameIsRead` shows that the appended line adds exactly the two lower-cased
words.

## Model

| member | source | states |
|---|---|---|
| `Text.Strip` | codenames.py:40 | the result has no whitespace at either end and sits in the input with only whitespace before and after it |
| `Text.StripUnique` | codenames.py:40 | those two properties determine `strip()`: any stripped piece of the line flanked only by whitespace is the stripped line |
| `Text.StripIdempotent` | codenames.py:40 | stripping leaves a string unchanged exactly when it has no whitespace at either end; stripping twice is stripping once |
| `Text.Split` | codenames.py:130 | every piece `split()` returns is non-empty and free of whitespace |
| `Text.SplitJoin` | codenames.py:130 | splitting undoes joining tokens with any non-empty runs of whitespace, so `RED FOX`, `RED\tFOX` and `RED   FOX` all give `RED` and `FOX` |
| `Text.SplitLeadingSpace` | codenames.py:130 | leading whitespace does not change the tokens |
| `Text.SplitTrailingSpace` | codenames.py:130 | trailing whitespace, such as the line terminator, does not change the tokens |
| `Text.SplitStrip` | codenames.py:130 | `line.strip().split()` gives the same tokens as `line.split()` |
| `Text.LowerIdempotent` | codenames.py:133-134 | the lower-cased words stored in the used sets are their own lower-case form |
| `Text.LowerOfUpper` | codenames.py:151 | lower-casing an upper-cased word gives the word's own lower-case form, so, for ASCII words, a name read back from the log matches the words it was made of |
| `Text.UpperConcat` | codenames.py:151 | upper-casing `adj + " " + noun` upper-cases each part |
| `Text.UpperKeepsToken` | codenames.py:151 | case mapping neither creates nor removes whitespace, so a token stays a token |
| `WordList.LoadWords` | codenames.py:40 | every loaded word is non-empty and stripped, and there are no more words than lines |
| `WordList.LoadWordsAppend` | codenames.py:40 | the filter maps concatenated line lists to concatenated word lists, so file order is kept |
| `WordList.LoadWordsSingle` | codenames.py:40 | one line contributes its stripped form if that is not empty, and nothing otherwise |
| `WordList.LoadWordsMember` | codenames.py:40 | a word is loaded exactly when it is non-empty and some line strips to it |
| `WordList.LoadWordsOfCleanLines` | codenames.py:40 | a file already holding one clean word per line loads unchanged |
| `WordList.GetWords` | codenames.py:92-113 | with a path, the run crashes exactly when the file is unreadable, a missing or undecodable file gives no words, and a readable file gives exactly its non-empty stripped lines (no more words than lines); without a path, the fetched list is used |
| `WordList.LoadWordsFromFile` | codenames.py:34-46 | a missing or undecodable file gives the empty list; only other errors escape; a readable file gives the filtered lines |
| `UsedNames.UsedWordsMember` | codenames.py:129-134 | a word is in the adjective (noun) set exactly when some line has two tokens and its first (second) token lower-cases to it |
| `UsedNames.UsedWordsSnoc` | codenames.py:129-134 | reading one more line adds that line's entry and nothing else |
| `UsedNames.SkippedLine` | codenames.py:131 | a line with 0, 1 or 3 or more tokens leaves both sets unchanged |
| `UsedNames.LoadUsedCodeNames` | codenames.py:125-138 | the loop builds exactly the two sets of the log's two-token lines; a missing log gives two empty sets; a log that does not decode, and any other error, escape; every stored word is lower-case |
| `UsedNames.SplitNameLine` | codenames.py:130-132 | a line `adj noun\n` of two tokens splits into those two tokens |
| `UsedNames.AppendedNameIsRead` | codenames.py:129-134 | a name the tool appends as its own line (`ADJ NOUN\n`) adds exactly the lower-cased adjective and noun on the next read (for ASCII words, under the model's case mapping) |
| `UsedNames.MultiWordAdjectiveNotRecorded` | codenames.py:131 | a name whose adjective is two single-token words joined by a space, with a single-token noun, is written as a line of three tokens, which adds nothing on the next read |
| `UsedNames.ExampleLog` | codenames.py:125-138 | the log lines `RED FOX` and `blue cat` give the adjectives {red, blue} and the nouns {fox, cat} |
| `Sampler.Available` | codenames.py:141-142 | a word is available exactly when it is in the list and its lower-case form is not used |
| `Sampler.AvailableEmpty` | codenames.py:144 | no word is available exactly when every word's lower-case form is used |
| `Sampler.AvailableAppend` | codenames.py:141-142 | the filter keeps the order of the list |
| `Sampler.GenerateUniqueCodeName` | codenames.py:140-158 | fails exactly when every adjective or every noun is used, and then changes nothing; otherwise returns `upper(adj + " " + noun)` for an adjective and a noun not used before the call, and grows each used set by exactly that word's lower-case form; the retry loop ends in its first round |
| `CodeNames.Run` | codenames.py:161-177 | stops early exactly when a loaded list is empty; reports exhaustion exactly when the sampler's failure condition holds for the sets read from the log (or empty sets); a generated name is made of available words; an append is requested exactly when a name was produced, the append flag is set and a log path was given; an escaped exception is reported exactly when a loader raises |

## Left out

- Reading files, the network fetch (`fetch_words_from_url`, codenames.py:58-86) and the JSON
  decoding: the file contents a path yields and the list a fetch yields are parameters of
  `Run`, and a fetch that fails with a request or JSON decoding error is the empty list. Two
  JSON cases are not modelled: a document that is not an object makes `data.get` raise
  `AttributeError`, which escapes `main` (codenames.py:74-75), and a key that holds something
  other than a list of strings.
- Writing the log (`append_to_used_code_names_file`, codenames.py:48-56): `Run` returns the
  path the name is to be appended to, and the write and its error message are not modelled.
  Because of this, the model does not capture one effect of the append: a log whose last line
  has no line terminator gets the new name joined onto that line.
- Argument parsing (codenames.py:180-189) and every `print`: the flags are parameters of
  `Run`, and the messages are the variants of `Report`.
- `random.choice`: the draws are arbitrary indices (`:|`), so nothing is said about their
  distribution.
- `Text.Lower` and `Text.Upper` map only the ASCII letters. Python's `lower()` and `upper()`
  apply full Unicode case mapping, which can also change a string's length (`'ß'.upper()` is
  `'SS'`).
- UsedNames.AppendedNameIsRead and Text.LowerOfUpper hold for the model's ASCII case mapping
  only. In Python, a non-ASCII word whose upper-then-lower form differs from its own lower-case
  form is not excluded on the next run: `ſun` is written as `SUN` and read back as `sun`, and
  `straße` is written as `STRASSE` and read back as `strasse`, while the filter tests `ſun` and
  `straße` themselves.
- Encodings: whether a file decodes is a parameter (`FileRead.Undecodable`). The log is opened
  with the platform's default encoding and the word files with UTF-8, and the model does not
  tell the two apart.
