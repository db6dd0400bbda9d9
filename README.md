# Companion: conversation-history trimming and the chat store

This project models two parts of the Companion chat assistant and proves properties of both:

- **The history manager of the `LLM` wrapper** (`companion/llm.py`). It keeps two parallel lists:
  - the role-tagged history sent to the language model;
  - the token cost of every entry ever appended.

  After each append it scans the cost list from the newest entry backwards, summing costs. It stops at the first index where the sum reaches the budget `n_ctx - max_tokens`, or at index 0. It then slices the history from that index. It also builds the prompt: a fixed system instruction, the history, and an optional system message carrying extra context.
- **The SQLite chat store `Database`** (`companion/database.py`). It holds a `chat_threads` table and a `messages` table, both with AUTOINCREMENT keys. Its operations are: create a thread, list threads newest first, save a message, list a thread's messages oldest first, read a thread's title (with a `'New Chat'` default), retitle a thread, and delete threads that no message refers to. The last one runs on every construction.

Files:
- `wrappers.dfy`: an `Option` type.
- `llm.dfy` (module `CompanionLlm`): the class `Llm`.
  - Its fields `conversationHistory` and `conversationHistoryTokens` are the two lists.
  - The backward scan is a `while` loop in `UpdateConversationHistory`.
  - The loop is proved to stop at `Cutoff`. `Cutoff` is a reference definition written from the oldest end, and its contract is the cutoff rule `IsCutoff`.
- `database.dfy` (module `CompanionDatabase`): the class `Database`.
  - The two tables are `seq` fields in insertion order.
  - `threadSeq` and `messageSeq` are the tables' `sqlite_sequence` entries: the largest id ever issued. Because of them, a new id never repeats an earlier one, even one of a deleted row.
  - `NOT IN` follows SQL's three-valued logic (`SqlBool`), so one NULL thread id in `messages` keeps every thread.

Two behaviours of the code are modelled as written:

- **The cost list is never trimmed.** Line 128 slices only the history. Once an entry has been dropped, the cutoff index counts over more entries than the history holds, so the slice removes extra entries. `MisalignedTrimDropsMore` proves this. `MisalignmentEmptiesHistory` shows three turns that each cost the whole budget: the third update leaves the history empty. The rule "the newest turn is always kept" holds only while the two lists are aligned (`AlignedTrimKeepsNewest`).
- **The cutoff entry is kept even when it pushes the total over the budget.** So four entries of 30 tokens against a budget of 80 keep three entries, with a sum of 90 (`CutoffFourThirties`). The code keeps three such entries, not two.

Inputs that come from outside are parameters:
- the tokenizer is the `countTokens` function given to the `Llm` constructor;
- `CURRENT_TIMESTAMP` is the `now` argument;
- the reply of the language model is the `reply` argument of `GenerateResponse`;
- the contents of an existing database file are the arguments of `Database.Open`.

Timestamps are integers in clock order. SQLite stores them as text that sorts in that same order.

## Model

| member | source | states |
|---|---|---|
| `CompanionLlm.Llm.constructor` | companion/llm.py:22-30 | `max_tokens` defaults to 256 and `n_ctx` to 2048 when the configuration omits them; both lists start empty |
| `CompanionLlm.Llm.UpdateConversationHistory` | companion/llm.py:105-128 | appends exactly one entry and exactly its cost (the token count of `"role: content"`) to the cost list, which is never shortened; the new history is the old history plus the entry, sliced Python-style at `Cutoff` of the new cost list; the cost list stays the costs of all entries ever appended, and the history stays a suffix of those entries |
| `CompanionLlm.Llm.GenerateResponse` | companion/llm.py:44-80 | records the user turn, builds the prompt from the history trimmed after that turn, then records the reply as the assistant turn; the cost list grows by exactly those two costs, and the final history is the user-turn trim followed by the assistant-turn trim against the cost list that already holds the user cost |
| `CompanionLlm.Cutoff` | companion/llm.py:117-126 | the scan's stopping index is in `0 .. len(tokens) - 1`; every later index has a suffix sum below the budget; the stopping index's own suffix reaches the budget unless it is 0 |
| `CompanionLlm.CutoffUnique` | companion/llm.py:118-126 | at most one index satisfies the cutoff rule, so the loop's result is determined by the cost list and the budget |
| `CompanionLlm.SuffixSumAntitone` | companion/llm.py:122 | costs are token counts and cannot be negative, so a suffix sum never decreases as the suffix gets longer |
| `CompanionLlm.CutoffNewestReachesBudget` | companion/llm.py:121-124 | if the newest cost alone reaches the budget, the scan stops at the newest index |
| `CompanionLlm.CutoffNonPositiveBudget` | companion/llm.py:123 | with `n_ctx - max_tokens <= 0` the scan stops at the newest index on its first iteration |
| `CompanionLlm.CutoffFourThirties` | companion/llm.py:118-126 | costs 30, 30, 30, 30 with budget 80 stop at index 1: the boundary entry is kept |
| `CompanionLlm.Slice` | companion/llm.py:128 | Python `s[i:]`: the last `len(s) - i` items, or nothing once `i` passes the end; always a suffix of `s` |
| `CompanionLlm.AlignedTrimKeepsNewest` | companion/llm.py:114-128 | while the history and cost lists have equal length, the kept history is non-empty, ends with the new entry, has length `len(tokens) - i`, and is that contiguous suffix |
| `CompanionLlm.AlignedStaysAligned` | companion/llm.py:114-128 | aligned lists stay aligned after an update exactly when the scan reached index 0 |
| `CompanionLlm.NewestOverBudgetTrim` | companion/llm.py:121-128 | an entry costing the whole budget cuts the history at its index in the cost list; with aligned lists exactly that one entry is kept |
| `CompanionLlm.MisalignedTrimDropsMore` | companion/llm.py:115-128 | once the history is shorter than the cost list, the update keeps fewer entries than the scan counted, and keeps none exactly when the cutoff passes the history's end |
| `CompanionLlm.MisalignmentEmptiesHistory` | companion/llm.py:114-128 | from an empty start, three turns that each cost the whole budget leave the histories `[a]`, `[b]`, then an empty history |
| `CompanionLlm.BuildPrompt` | companion/llm.py:83-103 | the prompt is the system instruction "You are an AI assistant.", then the history unchanged, then a system message with the context only when the context is non-empty; its length is `1 + len(history)` or `2 + len(history)`; as a function it cannot change the history |
| `CompanionDatabase.Database.Open` | companion/database.py:19-42 | opening starts from the stored tables (or empty ones) and runs the cleanup: the threads become `DeleteEmptyThreads` of the stored tables, and messages and counters are unchanged |
| `CompanionDatabase.Database.CreateThread` | companion/database.py:44-48 | adds exactly one thread with the given title and clock value; its id is one above the largest id ever issued, so it differs from every live and every deleted id; the title lookup then returns the title |
| `CompanionDatabase.Database.GetThreads` | companion/database.py:50-53 | each thread appears exactly once as `(id, title)` (multiset equality), and creation times do not increase along the result |
| `CompanionDatabase.Database.SaveMessage` | companion/database.py:55-61 | appends exactly one message row `(next id, thread_id, role, content, now)` without checking that the thread exists; threads are unchanged; `(role, content)` then appears in that thread's messages |
| `CompanionDatabase.Database.SelectMessages` | companion/database.py:63-69 | the selected rows are a permutation of the thread's messages, in non-decreasing timestamp order |
| `CompanionDatabase.Database.GetMessages` | companion/database.py:63-69 | exactly the `(role, content)` pairs of the messages whose `thread_id` equals the argument (none for NULL), in the order of `SelectMessages` |
| `CompanionDatabase.Database.GetThreadTitle` | companion/database.py:71-75 | the title of the thread with that id, or "New Chat" when no thread has it |
| `CompanionDatabase.Database.UpdateThreadTitle` | companion/database.py:77-90 | the threads become `Retitle` of the old ones: only the row with that id gets the new title; messages are untouched; the title lookup then returns the new title |
| `CompanionDatabase.Database.DeleteEmptyChats` | companion/database.py:92-113 | the threads become `DeleteEmptyThreads` of the old threads, reached by deleting the selected ids one at a time; the messages table is not in the frame |
| `CompanionDatabase.FindThread` | companion/database.py:73-74 | finds a row carrying the id, and finds nothing exactly when no row carries it |
| `CompanionDatabase.FindMember` | companion/database.py:27 | with primary-key ids, the lookup of a thread's id finds that very thread |
| `CompanionDatabase.SortBy` | companion/database.py:52 | `ORDER BY`: the result is sorted by the key and is a permutation of the table |
| `CompanionDatabase.MapPermutation` | companion/database.py:52-53 | selecting columns from a reordered table gives the same rows, each as often |
| `CompanionDatabase.ListedNewestFirst` | companion/database.py:52 | along the listed rows, the creation time of the thread each id names does not increase |
| `CompanionDatabase.WhereMembers` | companion/database.py:66 | `WHERE thread_id = ?` keeps exactly the messages with that non-NULL thread id |
| `CompanionDatabase.WhereAppend` | companion/database.py:55-69 | saving a message adds it at the end of its own thread's selection and leaves every other thread's selection unchanged |
| `CompanionDatabase.SavedMessageListed` | companion/database.py:55-69 | after a message is saved, its `(role, content)` pair is among its thread's results |
| `CompanionDatabase.Retitle` | companion/database.py:86-89 | same number of rows; the row with the id gets the new title with id and creation time kept; every other row is unchanged |
| `CompanionDatabase.RetitleIdempotent` | companion/database.py:77-90 | retitling twice with the same title equals retitling once |
| `CompanionDatabase.RetitleUnknownIsNoop` | companion/database.py:86-89 | retitling an id that no row carries leaves the table unchanged |
| `CompanionDatabase.NotInTrue` | companion/database.py:99-102 | SQL `x NOT IN (...)` is true exactly when `x` is absent and no NULL is present |
| `CompanionDatabase.EmptyThreadIdsMembers` | companion/database.py:99-103 | the selected ids are exactly the thread ids for which `NOT IN` is true |
| `CompanionDatabase.WithoutIdsMembers` | companion/database.py:109-112 | after the deletes, a row survives exactly when its id was not deleted |
| `CompanionDatabase.WithoutIdsStep` | companion/database.py:109-112 | deleting the ids one at a time gives the same table as deleting them as a batch |
| `CompanionDatabase.WithoutIdsNoop` | companion/database.py:104-112 | deleting ids that no row carries, or no ids at all, changes nothing |
| `CompanionDatabase.WithoutIdsKeepsOrder` | companion/database.py:109-112 | deletion keeps the surviving threads in increasing id order |
| `CompanionDatabase.DeleteEmptyThreadsKeeps` | companion/database.py:92-113 | a thread survives the cleanup exactly when some message references its id or some message has a NULL thread id; threads with messages are never deleted, and threads without any are deleted unless a NULL exists |
| `CompanionDatabase.NullThreadIdBlocksCleanup` | companion/database.py:99-102 | if any message has a NULL `thread_id`, the cleanup deletes nothing |
| `CompanionDatabase.DeleteEmptyThreadsIdempotent` | companion/database.py:92-113 | running the cleanup a second time over the same messages deletes nothing more |

## Left out

- Model loading and `update_model` (companion/llm.py:17-20, 130-138): these are calls into llama-cpp. The tokenizer is a function given to the constructor.
- `create_chat_completion`, streaming-chunk parsing and the generator mechanics of `generate_response` (companion/llm.py:50-78): the engine is external, and its final text is the `reply` parameter. In the non-stream branch the source stores the raw response dictionary as the assistant's content, and `response_text` is never used. The model does not represent dictionaries, and it notes this only here.
- The `print` of the history (companion/llm.py:81) and the `print` logging in database.py: output only.
- `temperature` and `top_p` (companion/llm.py:23, 25): floating-point values passed straight to the engine, with no logic.
- UTF-8 encoding before tokenizing (companion/llm.py:115): it is part of the opaque token counter.
- The singleton and its double-checked locking with `threading.Lock` (companion/database.py:7-17), `check_same_thread=False`, and concurrent access: the model is sequential. Each later `Database()` call returns the same instance and reruns `delete_empty_chats`, which is `DeleteEmptyChats` on the existing object.
- The SQLite engine itself, `commit` and durability: the tables are sequences that each operation updates at once.
- `DISTINCT` in the cleanup subquery: `NOT IN` does not depend on multiplicity, so the column is used with its duplicates.
- NULL titles, roles and contents: `title` is `NOT NULL` and the rest are never read for a decision. Only a NULL `thread_id` is modelled, because it changes the cleanup.
- Ties in `ORDER BY`: the order among equal timestamps is unspecified in SQL. The model picks a stable insertion sort. Only sortedness and the permutation are proved about `SortBy`, but `GetMessages` returns the pairs of `SelectMessages` in its order, so it inherits that sort's order among equal timestamps.
- UpdateConversationHistory: the model assumes tokenizing never fails and that only the class writes the two lists, so a history longer than the cost list is not modelled. In the source the entry is appended to `conversation_history` before it is encoded and tokenized (companion/llm.py:114-115), so an exception there would leave an entry without a cost; outside writes to the public list (for example from the interface) are not modelled either.
- Database.CreateThread, Database.SaveMessage: the AUTOINCREMENT counters are unbounded naturals; SQLite fails with SQLITE_FULL once an id would pass 2^63-1, and that error path is not modelled.
- Semantic retrieval, embeddings and a per-message trace field: no file of the repository implements them (the `messages` table has only `id`, `thread_id`, `role`, `content` and `timestamp`).
- The Streamlit interface (companion/interface.py) and configuration loading (companion/config.py): UI and file I/O. The `llm_backend` module that the interface imports is not part of this model.
