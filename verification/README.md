# Channel reordering by id list — a Dafny model

The bot in `bot.py` reorders the channels of a Discord category. A moderator
passes a list of channel ids, written like `111,222 333`. The bot:

- moves those channels to the front or the back of the category, in the order given;
- keeps every other channel in its existing relative order;
- sends the new positions to the guild in one bulk edit.

This project models the two pure pieces of that bot and proves what they
promise:

- **`parse_ids`**: commas count as whitespace; the text is split on Python
  whitespace; only all-digit tokens are kept and read as integers; repeats are
  dropped, and the first occurrence wins. An all-digit token longer than 4300
  characters makes `int()` raise `ValueError`, and then `parse_ids` raises.
- **The planning part of `reorder_category_by_ids`**:
  - sort the category's channels by position (a stable sort);
  - keep the requested ids that belong to the category (`valid`);
  - build `specified + remaining` or `remaining + specified`;
  - report "not found" when `valid` is empty, and "already in order" when the
    ids do not change;
  - otherwise build the payload, which numbers the new order contiguously from
    the category's smallest position.

Modules (one per file):

| file | module | contents |
|---|---|---|
| `seqs.dfy` | `Seqs` | duplicate-freedom, `Filter`, first-occurrence `Dedup` and its characterization, uniqueness of key-ordered sequences |
| `tokens.dfy` | `Tokens` | Python's whitespace set, `replace(",", " ")`, `Split` (argument-less `str.split`), a scanning `Tokenize` method |
| `parse_ids.dfy` | `ParseIds` | digit tokens, `int()`/`str()` on decimal strings and their 4300-digit limit, `ParseIds` and a loop version mirroring the source |
| `channels.dfy` | `Channels` | `Channel(id, position)`, the stable sort `ByPosition`, distinct-id facts |
| `reorder.dfy` | `Reorder` | `valid`/`specified`/`remaining`/`final_order`, the plan, the payload, the reply, and applying the payload |
| `command.dfy` | `Command` | the ids the slash command hands over (parsed ids minus out-of-category ids) |

The remote bulk edit `guild.edit_channel_positions` is not modelled as a call.
`ReorderCategory` takes the guild's answer as a parameter (`ApiResult`).
`ApplyPayload` is an idealised guild that gives each listed channel the listed
position. Python integers are unbounded, like Dafny's `int`, so no width or
wrap-around applies to arithmetic. Converting a string with `int()` is bounded,
though: CPython refuses more than 4300 digits by default. `ParseIds.ParseIds`
returns `DigitLimitExceeded` in that case.

## Model

| member | source | states |
|---|---|---|
| `ParseIds.ParseIds` | bot.py:25-37 | `parse_ids` raises exactly when some all-digit token of the comma-as-space split has more than 4300 characters. Otherwise it returns the duplicate-free `IdList`. |
| `ParseIds.IdList` | bot.py:25-37 | The returned list has no duplicates. An id is in it exactly when some all-digit token of the comma-as-space split spells it. Ids appear in the order in which they first occur among the digit tokens. |
| `ParseIds.ParseIdsShortText` | bot.py:25-37 | Text of at most 4300 characters never reaches the limit: `parse_ids` returns the id list. |
| `ParseIds.ParseIdsLongToken` | bot.py:29-30 | A run of 4301 digits makes `parse_ids` raise. |
| `ParseIds.ParseIdsLoop` | bot.py:25-37 | Tokenizing, collecting and dropping repeats as the function does yields exactly `ParseIds`: the same error, or the same duplicate-free list. |
| `ParseIds.CollectIds` | bot.py:27-30 | The first loop fails exactly when some token is all digits and longer than 4300 characters. Otherwise it gives the values of the all-digit tokens in token order, repeats kept, as the recursive reference `DigitIds` defines them. |
| `ParseIds.DropRepeats` | bot.py:31-37 | The second loop, which remembers ids in `seen`, computes exactly first-wins deduplication. |
| `Seqs.Dedup` | bot.py:31-37 | First-wins deduplication returns a duplicate-free list with the same elements, ordered by each element's first occurrence in the input. |
| `Seqs.DedupCharacterization` | bot.py:31-37 | A list equals the deduplication of `xs` if and only if it is duplicate-free, has the same elements as `xs`, and is in first-occurrence order. |
| `Seqs.DedupOfNoDup` | bot.py:31-37 | A list without repeats is returned unchanged. |
| `Seqs.DedupIdempotent` | bot.py:31-37 | Deduplicating twice gives the same list as deduplicating once. |
| `Seqs.FilterFirstSeenOrder` | bot.py:143-147 | Keeping only some elements of a duplicate-free list keeps them in their original order. |
| `Tokens.ReplaceCommas` | bot.py:28 | Every comma becomes a space. Every other character stays the same, and the length does not change. |
| `Tokens.SplitTokens` | bot.py:28 | Every token is non-empty and contains no whitespace character. |
| `Tokens.SplitAtSpace` | bot.py:28 | Any whitespace character is a token boundary: splitting `a + [c] + b` gives the tokens of `a` followed by those of `b`. |
| `Tokens.SplitNoSpace` | bot.py:28 | Text without whitespace is one token, or no token when it is empty. Together with `SplitAtSpace` this fixes the tokenization completely. |
| `Tokens.SplitKeepsContent` | bot.py:28 | The tokens, concatenated, are exactly the non-whitespace characters of the text, in order. |
| `Tokens.SplitSpaceAgnostic` | bot.py:28 | The tokens depend only on where whitespace is, not on which whitespace character it is. |
| `Tokens.Tokenize` | bot.py:28 | A left-to-right scan produces exactly the tokens of `Split`. |
| `ParseIds.SeparatorsInterchangeable` | bot.py:28 | Replacing a comma or whitespace character by another comma or whitespace character never changes what `parse_ids` does: the same ids, or the same error. |
| `ParseIds.DigitIdsMembers` | bot.py:27-30 | An id is collected exactly when some all-digit token spells it. |
| `ParseIds.NonDigitTokenIgnored` | bot.py:28-30 | A token with any non-digit character contributes nothing: `parse_ids` gives the same ids, or the same error, with and without it. |
| `ParseIds.Decimal` | bot.py:30 | `str(n)` is an all-digit token without a leading zero, and `int` reads it back as `n`. |
| `ParseIds.DecimalOfValue` | bot.py:29-30 | For a digit token without a leading zero, reading it with `int` and printing the value gives the token back. |
| `ParseIds.ParseJoinIds` | bot.py:25-37 | Parsing comma-joined decimal ids succeeds and gives the ids with repeats removed, first occurrence kept. This holds whenever `str()` can print every id, that is, in at most 4300 digits. |
| `ParseIds.ParseJoinIdsRoundTrip` | bot.py:25-37 | A duplicate-free id list that `str()` can print survives printing as `111,222,333` and parsing back unchanged. |
| `Channels.ByPosition` | bot.py:49 | The sort yields channels in non-decreasing position that are a permutation of the category's channels. |
| `Channels.ByPositionStable` | bot.py:49 | The sort is stable: channels sharing a position keep their input order. |
| `Channels.ByPositionCharacterization` | bot.py:49 | A list is the sorted category if and only if it is position-sorted and keeps, at every position, the input order. |
| `Reorder.ChannelById` | bot.py:50-57 | The dictionary lookup returns a channel of the category with the requested id, namely the last one, as a later dictionary entry overwrites an earlier one. |
| `Reorder.Specified` | bot.py:57 | `specified` has one channel per valid id, in request order, each a channel of the category carrying that id. |
| `Reorder.NoValidIds` | bot.py:53-55 | `valid` is empty exactly when no requested id is a channel of the category. |
| `Reorder.MinPosition` | bot.py:66 | `base_pos` is a position some channel has, and no channel has a smaller one. |
| `Reorder.PlanReorder` | bot.py:48-67 | "Not found" exactly when no requested id is in the category. "Already in order" exactly when some requested id is in the category and the new order's ids equal the sorted ids. Otherwise the payload follows the new order and its positions run `base, base+1, ...` from the smallest current position. |
| `Reorder.PlannedPayload` | bot.py:66-67 | The planned payload is the new order numbered contiguously from its first position. |
| `Reorder.ReorderCategory` | bot.py:40-76 | "Not found" exactly when no requested id is in the category. "Already in order" exactly when the plan says so. "Updated", "forbidden" and "failed, with the error" happen exactly when a payload was planned and the guild answered that way. |
| `Reorder.FinalOrderPermutation` | bot.py:53-59 | With a duplicate-free request and distinct channel ids, `final_order` is a permutation of the category's channels. |
| `Reorder.UnrequestedKeepOrder` | bot.py:49-59 | The channels not requested appear in `final_order` in the same relative order as in the position-sorted category. |
| `Reorder.RequestedFollowOrder` | bot.py:53-59 | The requested channels that belong to the category appear in `final_order` in exactly the requested order. |
| `Reorder.RequestedBlockPlacement` | bot.py:59 | With `place_front` the requested channels form the prefix of `final_order` and the others follow in position order. Otherwise the requested channels form the suffix. |
| `Reorder.PayloadRealizesOrder` | bot.py:65-70 | Once every channel takes its payload position, listing the category by position gives exactly `final_order`. |
| `Command.CommandIds` | bot.py:112-146 | The command stops exactly when `parse_ids` raises. Otherwise the ids handed to the reorder are duplicate-free. They are exactly the parsed ids that are not outside the category, and they keep their parse order. |
| `Command.CommandReorderIsPermutation` | bot.py:112-148 | For any command text that parses, the new order computed for a category with distinct ids is a permutation of its channels. |

## Left out

- `ParseIds.ParseIds`: a digit is an ASCII `'0'`–`'9'` only. Python's `str.isdigit` also accepts other Unicode digits (superscripts, other scripts' digits). Some of those `int()` reads; for others, such as `'²'`, `int()` raises. Such tokens are dropped in this model.
- The bulk edit `guild.edit_channel_positions` and its `Forbidden`/`HTTPException` handling (bot.py:69-74) are a remote call. Its outcome is the `ApiResult` parameter of `ReorderCategory`. Any other exception raised at bot.py:70 propagates out of the function and has no `ApiResult` case. `ApplyPayload` models a guild that sets exactly the listed positions and nothing else; the guild's own renumbering of other categories is not modelled.
- The reply texts (Japanese messages, and the category name in the success message) are represented by the `Reply` constructors, not by strings.
- The `/reorder_channels` handler (bot.py:80-149) is interaction glue:
  - guild and member checks;
  - the permission-or-role check;
  - the empty-list message;
  - choosing the category from `category_id` or from the first id's channel;
  - the `get_channel` lookups that compute `bad_ids`;
  - `defer`/`followup`.

  Only how it feeds the reorder is modelled. `bad_ids` is the parameter `outside` of `Command.CommandIds`.
- Bot bootstrap, command sync and environment parsing (bot.py:11-21, bot.py:153-171) are I/O and configuration.
- `category.channels` is taken as any sequence of channels. The library's own ordering of that list matters only for ties in position, which the stable sort preserves.
- Only `bot.py` is modelled; the rest of the repository is not.
- `ParseIds.MaxStrDigits` is CPython's default limit. Python versions without the limit, and changes through `sys.set_int_max_str_digits` or `PYTHONINTMAXSTRDIGITS`, are not modelled.
- `Command.CommandIds`: a `ValueError` from `parse_ids` ends the handler with no reply. The model only records that no ids reach the reorder.
