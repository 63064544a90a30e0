# Rank codec of neural-compression, in Dafny

neural-compression compresses English text with a language model. Its codec
driver, `LMProtocol`, splits the text into words and keeps the first `W` as
the *initial context*. It then walks the remaining words. Before each word it
asks the language model for a mapping from likely next words to
probabilities. When the word is in the mapping, the driver stores its
*ranking*: its position once the mapping is stably sorted by descending
probability. Otherwise it stores the word itself as an *out-of-vocabulary*
literal. Either way it then feeds the word into the model's context window.
Decoding replays the same model calls to get the words back.

This project models:

- the encoder `_get_compressed_object`;
- the decoder `_get_string_from_compressed_object`;
- the ranking function `_get_ranking_from_probabilities`;
- how the protocol's constructor builds its model;
- the context-window state machine of the four model classes (GPT, GPT-2,
  XLNet and BERT): constructor setup, `reset` and `add_word_to_context`.

Modules:

- `Words`: Python's `str.split()` and `' '.join`.
- `ContextWindow`: the window transitions. They are shared by every model,
  defined once and generic over the element type.
  - `AddWord` is `add_word_to_context`.
  - `Reset` is `reset`. A `ResetPolicy` chooses between raising (GPT, XLNet,
    BERT) and truncating (GPT-2).
  - `Feed` applies `AddWord` word after word.
- `Gpt`, `Gpt2`, `XLNet`, `Bert`: one class per model. Each holds a mutable
  `context` and the constant window length and candidate count. Each method
  is proved against the `ContextWindow` transition it performs. The network
  behind `__call__` is a constant total function from context to mapping, so
  the predictor is deterministic by construction.
- `LanguageModel`: candidates, mappings (a `Dict` in insertion order, with
  integer scores because only their order matters) and networks.
- `Ranking`: the stable descending sort and the ranking, with its
  characterisation by counting.
- `RankCodec`: encoding and decoding as functions of the model's reset
  policy, window length and network, with the round trip and the other
  codec properties.
- `Protocol`: the `LMProtocol` class. It owns a GPT, GPT-2 or XLNet model and
  runs the encoder and decoder loops against it. Each method is proved equal
  to the `RankCodec` function.
- `AsWritten`: the driver exactly as the code is written, where `reset`
  receives a string (see Findings).

How the model reads the code:

- **Window and candidate count of the wrapped model.** The protocol always
  builds it with window length 16 and 16 candidates (`LMProtocol.py:10`),
  whatever parameters it is given itself. Its own `context_window_length` only
  decides how many words open the text. The constructor ensures this through
  `Valid()`.
  - Rankings are therefore bounded by the size of the predicted mapping.
  - A raising model makes encoding fail once the initial context has more
    than 16 words (`RankCodec.EncodeSucceedsIff`).
- **Decode does not sort.** Decoding indexes the mapping's keys in their own
  order (`LMProtocol.py:71`), while encoding sorts them first
  (`LMProtocol.py:82`).
  - The round trip is therefore proved for predictors whose mappings already
    come in descending score order (`RankCodec.OrderedPredictor`).
  - The real models meet that condition only when their top-N token ids
    decode to distinct strings. Their `__call__` fills the mapping from
    `torch.topk`, which returns candidates in descending order
    (`models/gpt.py:68-77`). But it keys the mapping by the decoded string
    (`models/gpt.py:74-76`). When two ids decode to the same string, the
    later, lower score replaces the earlier one and keeps the earlier
    position, so the mapping can be out of order.
  - `RankCodec.UnorderedPredictorBreaksRoundTrip` shows that the condition is
    needed.
- **Evicting the newest word.** A full window drops its *newest* word
  (`pop()` with no index), not the oldest one the interface documents
  (`ILanguageModel.py:22`). `ContextWindow.EvictsNewestNotOldest` states
  exactly when the two agree. `ContextWindow.FullWindowFreezesPrefix` shows
  the consequence: once the window is full, the model keeps seeing the same
  first 15 words.
- **Negative rankings.** A ranking read back from an object can be any
  integer. Python's negative indices are modelled (`RankCodec.PyIndex`).
- **Edge cases.** `new_context[-0:]` keeps everything, so GPT-2's truncating
  reset leaves the context oversize when the window length is 0
  (`ContextWindow.ZeroWindowKeepsAll`). On a window of length 0,
  `add_word_to_context` calls `pop()` on an empty list (error
  `PopFromEmpty`).
- **Errors.** Every error the modelled code can raise is a value of
  `Outcomes.Error`. The model classes' `Reset` and `AddWordToContext`, and
  `Protocol.LMProtocol.GetCompressedObject`, leave the context as it was when
  they fail. A decode that fails midway keeps the words it has already fed,
  as the code does (`LMProtocol.py:66-73`).
- **Which protocol is modelled.** `Protocol` and `RankCodec` model the driver
  with the three Findings below corrected: `reset` gets the list of words, and
  decoding returns the initial words and the decoded words joined by spaces.
  `AsWritten` models the code as it stands.

## Model

| member | source | states |
|---|---|---|
| Words.Split | LMProtocol.py:34 | `text.split()`: the maximal runs of non-whitespace characters, in order, skipping leading, trailing and repeated whitespace |
| Words.Join | LMProtocol.py:37 | `' '.join(words)`: the words separated by single spaces, the empty string for no words |
| Words.WordLength | LMProtocol.py:34 | the length of the longest whitespace-free prefix: no whitespace before it, whitespace or the end at it |
| Words.SplitWellFormed | LMProtocol.py:34 | every word `str.split()` returns is non-empty and holds no whitespace |
| Words.SplitWord | LMProtocol.py:34 | a word followed by nothing or by whitespace splits off as exactly that word |
| Words.SplitJoin | LMProtocol.py:37 | splitting the space-joined words of a split gives the same words back |
| Words.SplitJoinSplit | LMProtocol.py:37 | a text's words survive one more join and split unchanged |
| Words.JoinLength | LMProtocol.py:37 | `n` joined words take at least `2n - 1` characters |
| Words.SplitShorter | LMProtocol.py:34 | a text has no more words than characters |
| ContextWindow.AddWord | models/gpt.py:46-52 | `add_word_to_context` of all four models. Fails with ContextOverrun exactly when the context is longer than the window, and with PopFromEmpty exactly on an empty full window; succeeds otherwise. On success the new length is `min(old + 1, window)`, the word is last and the other words are the old prefix |
| ContextWindow.Reset | models/gpt.py:40-44 | a context that fits is installed unchanged. Under Reject an oversize context fails with ContextTooLong, and only then. Under KeepLast (models/gpt2.py:41-48) reset always succeeds and keeps the last `window` words, so the result fits any non-empty window |
| ContextWindow.KeepTrailing | models/gpt2.py:46 | `new_context[-window_length:]`: the last `window` elements, or all of them when the window length is 0 |
| ContextWindow.Feed | LMProtocol.py:49 | the repeated `add_word_to_context`: each word in turn, stopping at the first failure with its error |
| ContextWindow.FeedAppend | LMProtocol.py:42-49 | feeding one more word continues from the context the earlier words reached |
| ContextWindow.FeedFits | models/gpt.py:46-52 | from a context that fits a non-empty window, feeding any words never fails and the context keeps fitting |
| ContextWindow.ZeroWindowKeepsAll | models/gpt2.py:41-48 | with window length 0, GPT-2's reset keeps every non-empty (so oversize) context whole |
| ContextWindow.EvictsNewestNotOldest | ILanguageModel.py:19-25 | adding a word agrees with the documented evict-the-oldest behaviour if and only if the window is not full or every word in it is the same |
| ContextWindow.FullWindowFreezesPrefix | models/gpt.py:49-52 | once the window is full, every later step keeps its length and its first `window - 1` words, and the last word fed is last |
| Gpt.GPTModel.constructor | models/gpt.py:21-38 | stores the window length and candidate count; the context is the given initial context, or empty for `None` |
| Gpt.GPTModel.Reset | models/gpt.py:40-44 | fails with ContextTooLong exactly when the new context is too long; otherwise the context becomes exactly the new one; in both cases it applies `ContextWindow.Reset` with Reject |
| Gpt.GPTModel.AddWordToContext | models/gpt.py:46-52 | applies `ContextWindow.AddWord`: on success the context is the new one, on failure the error is reported and the context is unchanged |
| Gpt.GPTModel.Predict | models/gpt.py:57 | `__call__` returns the network's mapping for the current context |
| Gpt2.GPT2Model.constructor | models/gpt2.py:21-39 | a falsy initial context gives an empty context, any other is stored |
| Gpt2.GPT2Model.Reset | models/gpt2.py:41-48 | never fails. A context that fits is stored unchanged; an oversize one is cut to its last `window_length` words; the result fits any non-empty window |
| Gpt2.GPT2Model.AddWordToContext | models/gpt2.py:50-56 | applies `ContextWindow.AddWord` to the context |
| Gpt2.GPT2Model.Predict | models/gpt2.py:61 | `__call__` returns the network's mapping for the current context |
| XLNet.XLNetModel.constructor | models/xlnet.py:21-38 | a falsy initial context gives an empty context, any other is stored |
| XLNet.XLNetModel.Reset | models/xlnet.py:40-44 | fails with ContextTooLong exactly when the new context is too long, otherwise stores it unchanged |
| XLNet.XLNetModel.AddWordToContext | models/xlnet.py:46-52 | applies `ContextWindow.AddWord` to the context |
| XLNet.XLNetModel.Predict | models/xlnet.py:54 | `__call__` returns the network's mapping for the current context |
| Bert.BERTModel.constructor | models/bert.py:18-27 | a falsy initial context gives an empty context, any other is stored |
| Bert.BERTModel.Reset | models/bert.py:29-33 | fails with ContextTooLong exactly when the new context is too long, otherwise stores it unchanged |
| Bert.BERTModel.AddWordToContext | models/bert.py:35-41 | applies `ContextWindow.AddWord` to the context |
| LanguageModel.Keys | LMProtocol.py:71 | `list(mapping.keys())`: one key per candidate, in the mapping's order |
| Ranking.SortByScore | LMProtocol.py:82 | `sorted(mapping.items(), key=lambda t: -t[1])`: a stable insertion sort by descending score, keeping the length |
| Ranking.IndexOf | LMProtocol.py:83 | `list.index`: the first position holding the word |
| Ranking.RankingFromProbabilities | LMProtocol.py:77-83 | for a word in the mapping: a position below the mapping's size, holding the word in the stably sorted mapping, with no earlier position holding it |
| Ranking.SortKeys | LMProtocol.py:82 | sorting neither adds nor loses a key |
| Ranking.SortElements | LMProtocol.py:82 | sorting neither adds nor loses a candidate |
| Ranking.SortPermutation | LMProtocol.py:82 | the sorted mapping is a permutation of the mapping: the same candidates, each as often |
| Ranking.SortNonIncreasing | LMProtocol.py:82 | the sorted mapping is in descending score order |
| Ranking.SortCountAbove | LMProtocol.py:82 | sorting keeps the number of candidates scored above any value |
| Ranking.SortPlaces | LMProtocol.py:82 | the stable sort puts candidate `i` after every higher-scored candidate and after the equal-scored ones before it |
| Ranking.SortDistinct | LMProtocol.py:82 | sorting a mapping with distinct keys keeps them distinct |
| Ranking.SortedUnchanged | LMProtocol.py:82 | an already ordered mapping is left as it is |
| Ranking.RankingCounts | LMProtocol.py:82-83 | a word's ranking is the number of keys scored higher plus the number of equal-scored keys before it in the predictor's order |
| Ranking.RankingOnOrdered | LMProtocol.py:71 | for an ordered mapping, the ranking also indexes the unsorted keys correctly |
| RankCodec.EncodeText | LMProtocol.py:34-50 | `_get_compressed_object` with `reset` given `words[:W]`: NotEnoughWords on at most `W` words, ContextTooLong when reset refuses the first `W` words, otherwise the initial context (the joined first `W` words, as its contract states) and the encoding of the later words against the reset context |
| RankCodec.DecodeObject | LMProtocol.py:63-74 | `_get_string_from_compressed_object` with `reset` given the split initial context: ContextTooLong when reset refuses those words, the decoding loop's error, else the initial words and the decoded words joined by single spaces |
| RankCodec.EncodeWords | LMProtocol.py:41-49 | the encoding loop: for each later word, the entry for it against the current prediction, then `add_word_to_context`, stopping at its first error |
| RankCodec.DecodeEntry | LMProtocol.py:67-71 | one item: a literal word is returned as is; a ranking indexes the unsorted keys, and only a ranking can fail, with RankOutOfRange; a found word is a key of the mapping |
| RankCodec.DecodeWords | LMProtocol.py:64-73 | the decoding loop: for each item, the word it stands for against the current prediction, then `add_word_to_context`, stopping at the first error |
| RankCodec.EncodeWord | LMProtocol.py:43-48 | an entry is out-of-vocabulary, holding the word itself, exactly when the word is not a key; otherwise its ranking is in range and points at the word in the sorted mapping |
| RankCodec.PyIndex | LMProtocol.py:71 | Python's `keys[r]`: succeeds exactly for `-len <= r < len`, else fails with RankOutOfRange |
| RankCodec.EncodeWordsSteps | LMProtocol.py:41-49 | one entry per later word, in order; entry `k` is word `k` encoded against the context reached by feeding the first `k` words |
| RankCodec.DecodeWordsSteps | LMProtocol.py:64-73 | one word per entry, in order; word `k` is entry `k` decoded against the context reached by feeding the first `k` decoded words |
| RankCodec.EncodeWordsSucceed | LMProtocol.py:49 | from a context that fits a non-empty window, feeding back the words never fails |
| RankCodec.RoundTripWords | LMProtocol.py:64-73 | decoding the entries against the same start context gives the encoded words back, for an ordered predictor |
| RankCodec.DecodeEncoded | LMProtocol.py:63-74 | decoding an object built from `W` initial words and the encoding of the rest gives all the words, joined by spaces |
| RankCodec.RoundTrip | LMProtocol.py:34-74 | decoding an encoded text gives its words joined by single spaces, which is the text itself when it already had that form, for an ordered predictor |
| RankCodec.ReplaysSameContexts | LMProtocol.py:49 | after its reset and after each decoded word, the decoder's model holds the same context the encoder's had at that point (LMProtocol.py:73) |
| RankCodec.EncodeSucceedsIff | LMProtocol.py:34-39 | encoding succeeds if and only if there are more than `W` words and the model accepts `W` words on reset. GPT-2 always accepts them; the others need `W <= window`. Too few words fail with NotEnoughWords |
| RankCodec.EncodeTextShape | LMProtocol.py:37-48 | the initial context is the first `W` words joined by single spaces; there is one entry per later word; an out-of-vocabulary entry holds its own word; a ranking is non-negative |
| RankCodec.RankingsBelowCap | LMProtocol.py:47-48 | every stored ranking is below any bound on the predictor's mapping sizes |
| RankCodec.AllOutOfVocabulary | LMProtocol.py:44-45 | if no word is in the mapping predicted at its own step, every entry is the literal word and decoding restores the words with no ordering condition |
| RankCodec.UnorderedPredictorBreaksRoundTrip | LMProtocol.py:71 | with a mapping not in score order, "b" is stored as ranking 0 but decoded as "a" |
| RankCodec.FirstChoiceRankedZero | LMProtocol.py:82-83 | in an ordered mapping the first candidate is stored as ranking 0 |
| RankCodec.QuickBrownFox | LMProtocol.py:34-74 | "the quick brown fox" with `W = 2` encodes to initial context "the quick" and rankings 0, 0, and decodes back to the text |
| Protocol.ResetModel | LMProtocol.py:39 | applies the wrapped model's reset transition (raising or truncating according to its class) |
| Protocol.AddWordToModel | LMProtocol.py:49 | applies `ContextWindow.AddWord` to the wrapped model's context |
| Protocol.PredictModel | LMProtocol.py:43 | the wrapped model's prediction for its current context |
| Protocol.LMProtocol.constructor | LMProtocol.py:6-12 | builds the chosen model with window length 16, 16 candidates and an empty context, and keeps its own two parameters |
| Protocol.LMProtocol.Encode | LMProtocol.py:43-48 | the entry for the next word, from the model's current prediction; the context is untouched |
| Protocol.LMProtocol.LookUp | LMProtocol.py:67-71 | the word an item stands for: its literal, or the key at its ranking in the unsorted prediction, else RankOutOfRange |
| Protocol.LMProtocol.GetCompressedObject | LMProtocol.py:23-50 | the result is `RankCodec.EncodeText` for the wrapped model; on failure the context is unchanged; on success it is the reset context fed with every later word |
| Protocol.LMProtocol.GetStringFromCompressedObject | LMProtocol.py:52-74 | the result is `RankCodec.DecodeObject` for the wrapped model; on success the context is the reset context fed with every decoded word |
| AsWritten.AddWordToString | models/gpt.py:46-52 | on a `str` context, adding fails: ContextOverrun exactly when it is too long, otherwise NoListMethod, as `str` has no `pop` or `append` |
| AsWritten.CharsAsWords | models/gpt.py:58-59 | `' '.join` over a `str` context treats each character as a word |
| AsWritten.EncodeTextAsWritten | LMProtocol.py:34-49 | the encoder as written never succeeds |
| AsWritten.DecodeObjectAsWritten | LMProtocol.py:63-74 | the decoder as written never succeeds |
| AsWritten.EncodeAsWrittenFails | LMProtocol.py:39 | whenever the corrected encoder succeeds on a non-empty window, the code as written fails: with ContextTooLong when a raising model gets a joined initial context longer than the window, else with NoListMethod |
| AsWritten.StringResetRejected | LMProtocol.py:39 | with `W <= window < 2W - 1` (for example `W >= 9` and window 16), a raising model rejects the joined string but accepts the list of the same words |
| AsWritten.QuickBrownFoxAsWritten | LMProtocol.py:39 | on "the quick brown fox", with the `RankCodec.QuickFox` predictor, the corrected codec round-trips. As written, encoding fails with NoListMethod, and decoding fails with RankOutOfRange (LMProtocol.py:63) because that predictor proposes nothing for 9 one-character words |
| AsWritten.DecodeAsWrittenFails | LMProtocol.py:63-73 | as written, once the first item is found in the prediction for the character context, decoding fails with NoListMethod at the `append` that follows |
| AsWritten.EmptyObjectJoin | LMProtocol.py:74 | an object with no stored words decodes to its initial words with the corrected join, and fails with StrPlusList as written |

## Left out

- The bodies of `__call__` are left out: tokenizer, transformer inference, softmax and `torch.topk` (models/gpt.py:57-78, models/gpt2.py:61-82, models/xlnet.py:54-75, models/bert.py:43-53). They are floating-point foreign calls. Each model has a constant `network` function instead. Scores are integers, not probabilities.
- BERT's `__call__` returns a single decoded token, not a mapping, so `Bert.BERTModel` has no prediction and cannot drive the codec. The protocol dispatches only to GPT, GPT-2 and XLNet, because traits are not used.
- `compress` (LMProtocol.py:15-21) is left out. It calls `_get_compressed_object` and returns nothing, so compressing produces no output as written. `_get_binary_from_object` is a stub (LMProtocol.py:85), and the bit packing and deflate pass have no code.
- Floating-point ties in the stable sort are not modelled. Equal scores are exact integer ties.
- `Words.Split` follows `str.isspace` for the whitespace code points known to CPython. It does no Unicode normalisation.
- Gpt2.GPT2Model.Reset: the `print` of its oversize message (models/gpt2.py:43-45) is I/O and is not modelled.
- Python lists are values here. The model does not capture that `reset` stores the caller's list object, which later `pop`/`append` calls would share with the caller.
- Protocol.LMProtocol.GetStringFromCompressedObject: the context left behind by a decode that fails midway is not stated.
- RankCodec.RoundTrip: the ordering hypothesis `OrderedPredictor` does not hold for a real model whose top-N token ids decode to the same string twice (models/gpt.py:74-76). The later, lower score then overwrites the earlier one in place, and the round trip can fail. The model's networks return finished mappings, so that overwrite is not modelled.
- The protocol's `next_word_possibilities_number` is stored but unused, as in the code (LMProtocol.py:12).
- AsWritten.EncodeTextAsWritten: the prediction on the `str` context before the failing `append` is not modelled. It cannot fail, and its result is discarded by the exception.
- models/base_transformer, experiments.py, corpus.py, main.py and device selection are not part of this model. They are training, timing, file I/O and demo code.

## Findings

| source | as written | input that shows it | evidently intended | confidence | as-written member | corrected member |
|---|---|---|---|---|---|---|
| LMProtocol.py:39 | the encoder passes `reset` the joined initial context, a `str` | "the quick brown fox" with `W = 2`: the 9-character string fits the window of 16, then `add_word_to_context` calls `append` on a `str` (AttributeError); with `W >= 9` a raising model rejects the string outright. The interface documents `new_context` as a String (ILanguageModel.py:15), but every model treats it as a list | `self.lm.reset(words[:W])` | high; not executed | AsWritten.EncodeAsWrittenFails | RankCodec.EncodeSucceedsIff |
| LMProtocol.py:63 | the decoder passes `reset` the stored `str` | any object with at least one stored word, such as the one for "the quick brown fox" with `W = 2`: the model's context becomes the 9-character `str` "the quick", and once the first word is looked up, `add_word_to_context` calls `append` on it (AttributeError). Under the `RankCodec.QuickFox` stub predictor, the lookup itself already fails (ranking 0 out of range) | `self.lm.reset(compressed_object['initial_context'].split())` | high; not executed | AsWritten.DecodeAsWrittenFails | RankCodec.RoundTrip |
| LMProtocol.py:74 | `' '.join(initial_context + words)` adds a `list` to a `str` (TypeError) | any object with an empty `words` list, such as initial context "the quick" | `' '.join(initial_context.split() + words)` | high; not executed | AsWritten.EmptyObjectJoin | RankCodec.DecodeEncoded |
