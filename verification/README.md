# A ChaCha-style stream cipher and QPSK transmission codecs

This project models two parts of a student project on encrypted telemetry transmission. Both are written in Dafny and carry proofs.

1. **The stream cipher in `Chiffrement/chacha_lib.py`** (module `ChaCha`, file `chacha.dfy`). The model follows the code as it is written, which is not standard ChaCha20:
   - `quarter_round` adds without reducing modulo 2^32. Only `ROTL` and the final masks bring values back to 32 bits.
   - `chacha20_block` overwrites the state in place, because `x` is an alias of `ctx.state`. Its final "add the input" loop therefore doubles every word, and the doubled words are never masked.
   - `chacha20_encrypt` computes a new block only when `counter % len(state) == 0`. It never changes the counter. Each byte it emits is `byte ^ state[counter % len(state)] % 256`.

   As a result, either the state is re-blocked before every byte and every key byte is even, or the state is never touched and one key byte is reused. The model proves both consequences. It also proves that decryption undoes encryption whatever the state. State words are 64-bit vectors (`bv64`). The lemmas establish that no intermediate value of a round reaches 2^64, so these vectors compute Python's unbounded integers exactly.

2. **The binary/ASCII and binary/QPSK codecs** (module `Codec`, file `codec.dfy`). These are `convert_ascii_bin` and `mod_qpsk_bin` together with their dictionaries, and `threshold_phases`. The codecs appear twice in the source, in `Transmission/transmission_lib.py` and in `Lib/Transmission_Lib.py`, with identical bodies. They are modelled once. Python exceptions become `Err(ValueError | KeyError | TypeError)` of a `Result`. A call whose mode is neither 1 nor 2 falls through both branches and returns `None`, which the model gives as `Ok(None)`.

Two small shared modules complete the project:
- `Wrappers` (`wrappers.dfy`) holds `Option` and `Result`.
- `Hex` (`hex.dfy`) holds hexadecimal digits and Python's clipping slice `s[lo:hi]`.

Three points where the code departs from what its names and comments suggest; the model follows the code:
- Section 2.3 of RFC 8439 has the ChaCha20 block function add the original input state to the result of the rounds. This code doubles the state instead.
- The module docstring (Chiffrement/chacha_lib.py:17-18) says the context manages a nonce. The constructor stores it, but no operation reads `ctx.nonce`.
- The docstring of `chacha20_setup` (Chiffrement/chacha_lib.py:101-108) asks for a 64-character key and a 24-character nonce, and promises ValueError when these sizes are not respected. The code checks no size. It raises ValueError only when a slice it reads is empty or not hexadecimal, including a non-hexadecimal character inside a key of the right length. Keys of 57-63 or more than 64 characters and nonces of 17-23 or more than 24 characters are accepted; `ChaCha.SetupAccepts` proves this.

## Model

| member | source | states |
|---|---|---|
| ChaCha.Rotl | Chiffrement/chacha_lib.py:81-92 | the rotation's result always fits in 32 bits, even when the input word is wider |
| ChaCha.RotlRotates | Chiffrement/chacha_lib.py:81-92 | on a 32-bit word, ROTL is the 32-bit left rotation by n for every n in 0..31 |
| ChaCha.RotlHighBits | Chiffrement/chacha_lib.py:81-92 | on a word of up to 35 bits and a rotation by at most 29, ROTL is the true rotation of the low 32 bits with the bits above bit 31 ORed in from bit n on |
| ChaCha.RotlFoldsHighBits | Chiffrement/chacha_lib.py:92 | on the word 2^32, rotated by 7, ROTL gives 0x80, where a true 32-bit rotation of the masked word gives 0 |
| ChaCha.QuarterRound | Chiffrement/chacha_lib.py:134-152 | given four words below 2^33, the four results are 32-bit words |
| ChaCha.QuarterRoundVector | Chiffrement/chacha_lib.py:235-252 | the quarter round maps the test input 11111111, 01020304, 9b8d6f43, 01234567 to ea2a92f4, cb1cf8ce, 4581472e, 5881c4bb, as the self-test asserts |
| ChaCha.QuarterRoundVectorIsStandard | Chiffrement/chacha_lib.py:235-252 | on that test vector, the unreduced quarter round agrees with the standard modulo-2^32 quarter round, so the self-test cannot detect the missing reduction |
| ChaCha.QuarterRoundKeepsCarries | Chiffrement/chacha_lib.py:148-152 | on the input ffffffff, 1, 0, 0 the unreduced quarter round differs from the standard one: a carry out of a sum survives into the result |
| ChaCha.StateQuarterRoundVector | Chiffrement/chacha_lib.py:254-306 | the quarter round on words 2, 7, 8 and 13 of the self-test's state gives exactly the sixteen asserted words |
| ChaCha.DoubleRound | Chiffrement/chacha_lib.py:170-178 | from sixteen words below 2^33, one column-and-diagonal double round yields sixteen 32-bit words |
| ChaCha.SelfAdd | Chiffrement/chacha_lib.py:179-180 | adding the aliased state to itself keeps every word below 2^33 and makes every word even |
| ChaCha.Rounds | Chiffrement/chacha_lib.py:169-180 | running the rounds on the state list keeps its length and every word past the sixteenth, and leaves the first sixteen even |
| ChaCha.Block | Chiffrement/chacha_lib.py:155-181 | chacha20_block keeps the list's length and its tail, and every one of the first sixteen words it leaves is even |
| ChaCha.MatrixRounds | Chiffrement/chacha_lib.py:170-178 | the ten double rounds on sixteen words keep them below 2^33, and below 2^32 once at least one round has run |
| ChaCha.RoundsFromDoubles | Chiffrement/chacha_lib.py:169-180 | the in-place rounds on the list equal n double rounds on the sixteen words followed by the doubling |
| ChaCha.BlockDoubles | Chiffrement/chacha_lib.py:155-181 | a block is ten double rounds followed by doubling every word, not an addition of the input state |
| ChaCha.HexWord | Chiffrement/chacha_lib.py:120-131 | the value `int(t, 16)` reads from t hexadecimal digits is below 16^|t|, so eight digits give a 32-bit word |
| ChaCha.ParseWord | Chiffrement/chacha_lib.py:120-131 | `int(t, 16)` on at most eight characters succeeds exactly when the text is non-empty and all hexadecimal, and then yields a 32-bit value |
| ChaCha.ParseWordText | Chiffrement/chacha_lib.py:120-131 | parsing the eight-digit hexadecimal text of a 32-bit word gives back that word |
| ChaCha.TextWord | Chiffrement/chacha_lib.py:120-131 | the w-th eight-character slice of a key or nonce parses exactly when it is non-empty and hexadecimal |
| ChaCha.TextWords | Chiffrement/chacha_lib.py:120-131 | reading n slices gives n results, the w-th being the parse of the w-th slice, each within 32 bits |
| ChaCha.SetupFailure | Chiffrement/chacha_lib.py:116-131 | setup stops at the first failing store: ValueError exactly when a parse fails at or before the first missing index, IndexError exactly when the list is too short and every store before the end succeeded |
| ChaCha.SetupValue | Chiffrement/chacha_lib.py:116-131 | every right-hand side of setup that evaluates, whether a constant, a key word, the counter or a nonce word, is a 32-bit value |
| ChaCha.Setup | Chiffrement/chacha_lib.py:95-132 | setup succeeds exactly when the list holds sixteen words and every slice parses, and it raises ValueError or IndexError in the stated cases; on success only the first sixteen words change, and the counter and nonce stay |
| ChaCha.SetupForgets | Chiffrement/chacha_lib.py:116-131 | setup's result does not depend on the previous contents of the first sixteen words |
| ChaCha.SetupIdempotent | Chiffrement/chacha_lib.py:95-132 | running setup twice with the same key and nonce gives the same context as running it once |
| ChaCha.SetupWords | Chiffrement/chacha_lib.py:95-132 | with key text spelling eight 32-bit words and nonce text spelling three, each as eight hexadecimal digits, setup succeeds on any list of sixteen or more words; it stores "expand 32-byte k" in words 0-3, the key words in order in words 4-11, the counter in word 12 and the nonce words in order in words 13-15 |
| ChaCha.SetupAccepts | Chiffrement/chacha_lib.py:95-132 | a state list of at least sixteen words with hexadecimal key and nonce texts longer than 56 and 16 characters is always accepted |
| ChaCha.EvenByte | Chiffrement/chacha_lib.py:209-211 | the low byte of an even word has its low bit clear |
| ChaCha.XorByteTwice | Chiffrement/chacha_lib.py:209-211 | XOR with the same key byte twice restores the byte |
| ChaCha.XorBytes | Chiffrement/chacha_lib.py:203-211 | the output has the input's length, and byte j is plaintext byte j XOR key byte j |
| ChaCha.XorBytesInvolution | Chiffrement/chacha_lib.py:203-211 | XOR with the same keystream twice gives back the plaintext |
| ChaCha.MessageBytes | Chiffrement/chacha_lib.py:203-211 | a byte string is used as is; a text is accepted exactly when every character is below 256, each giving its code |
| ChaCha.Index | Chiffrement/chacha_lib.py:205-209 | `counter % len(state)` is always a valid index of the state list |
| ChaCha.Step | Chiffrement/chacha_lib.py:205-206 | one loop step keeps the list's length and tail; with a non-zero index it leaves the list unchanged, and with index 0 it leaves the first sixteen words even |
| ChaCha.Advance | Chiffrement/chacha_lib.py:203-206 | after n steps the list's length, tail and index are unchanged; with a non-zero index the list is untouched, and with index 0 and at least one step the first sixteen words are even |
| ChaCha.AdvanceBlocks | Chiffrement/chacha_lib.py:203-206 | with index 0, step n of the loop is a run of chacha20_block on the list that step n - 1 left |
| ChaCha.KeyByte | Chiffrement/chacha_lib.py:209-211 | the key byte is the remainder of the word `state[counter % len(state)]` modulo 256 |
| ChaCha.Keystream | Chiffrement/chacha_lib.py:203-211 | the loop reads exactly one key byte per message byte; which byte is stated by KeystreamAt |
| ChaCha.KeystreamAt | Chiffrement/chacha_lib.py:203-211 | key byte j is the low byte of the indexed word of the state after j + 1 steps |
| ChaCha.KeystreamIdle | Chiffrement/chacha_lib.py:205-211 | with a non-zero index every key byte is the same byte of the set-up state |
| ChaCha.KeystreamEven | Chiffrement/chacha_lib.py:179-211 | with index 0 every key byte is even |
| ChaCha.EncryptLoop | Chiffrement/chacha_lib.py:203-211 | the loop leaves the state that n steps reach and emits the plaintext XOR the keystream |
| ChaCha.Encrypt | Chiffrement/chacha_lib.py:183-213 | encryption fails with setup's error, or with ValueError exactly when a character is above 255; otherwise the ciphertext has the message's length and the context keeps its counter, nonce, length and tail |
| ChaCha.EncryptByte | Chiffrement/chacha_lib.py:200-213 | ciphertext byte j is message byte j XOR the low byte of the word the counter selects, read after j + 1 steps from the set-up list; the context is left holding the list the last step produced |
| ChaCha.EncryptMethod | Chiffrement/chacha_lib.py:200-213 | setup, then the byte loop written out, returns exactly the errors, ciphertext and context that Encrypt defines |
| ChaCha.Decrypt | Chiffrement/chacha_lib.py:216-232 | decrypting bytes succeeds exactly when setup succeeds, and gives as many bytes as it was given |
| ChaCha.EncryptDecrypt | Chiffrement/chacha_lib.py:183-232 | decrypting the ciphertext with the context encryption left behind, the same key and the same nonce gives back the plaintext bytes |
| ChaCha.LowBitLeaks | Chiffrement/chacha_lib.py:179-211 | when the counter is a multiple of the list's length, every ciphertext byte has the low bit of its plaintext byte |
| ChaCha.ConstantKeyByte | Chiffrement/chacha_lib.py:203-211 | otherwise no block is ever computed: the context is the set-up one, and every byte is XORed with the same state byte |
| ChaCha.DriverRoundTrip | Chiffrement/Test_Chiffrement.py:45-67 | with the driver's context of 32 zero words, 64-digit key and nonce, and a plaintext below 256, encryption succeeds, decryption returns the plaintext's bytes, and every low bit leaks |
| Hex.Slice | Chiffrement/chacha_lib.py:120-131 | Python's `s[lo:hi]` clips to the string: its length is the overlap of lo..hi with the string, and element i is `s[lo + i]` |
| Codec.BinaryText | Transmission/transmission_lib.py:44-45 | `bin(i)[2:].zfill(w)` has exactly w binary digits |
| Codec.BinaryValue | Transmission/transmission_lib.py:44-45 | the value of w binary digits is below 2^w |
| Codec.ValueOfText | Transmission/transmission_lib.py:44-45 | reading back the w-digit text of a number below 2^w gives that number |
| Codec.TextOfValue | Transmission/transmission_lib.py:44-45 | writing the value of a binary text with as many digits gives back the text |
| Codec.LeadingDigit | Transmission/transmission_lib.py:44-45 | a binary text's value is below half its range exactly when its first digit is '0' |
| Codec.DictOfKeys | Transmission/transmission_lib.py:44-49 | a dict built from pairs has exactly the pairs' keys |
| Codec.DictOfAt | Transmission/transmission_lib.py:44-49 | when the keys are distinct, each pair is an entry of the dict |
| Codec.AsciiToBinEntry | Transmission/transmission_lib.py:44 | dict_ascii_to_bin has exactly the characters below 128, each mapped to its eight-digit binary code |
| Codec.BinToAsciiEntry | Transmission/transmission_lib.py:45 | dict_bin_to_ascii has exactly the eight-digit binary texts starting with '0', each mapped to the character with that code |
| Codec.BinToQpskEntry | Transmission/transmission_lib.py:47-49 | dict_bin_to_qpsk has exactly the four two-digit binary texts, each mapped to the QPSK phase it indexes |
| Codec.QpskToBinEntry | Transmission/transmission_lib.py:47-49 | dict_qpsk_to_bin has exactly the four QPSK phases, each mapped to the two-digit text of its index |
| Codec.Chunks | Transmission/transmission_lib.py:76 | splitting a text into n pieces of width w gives n pieces of that width, binary when the text is |
| Codec.ChunkAt | Transmission/transmission_lib.py:76 | piece i is the slice `t[w*i:w*(i+1)]` |
| Codec.JoinChunks | Transmission/transmission_lib.py:76 | joining the pieces of a text of length w·n gives the text back |
| Codec.ChunksJoin | Transmission/transmission_lib.py:73 | splitting the join of width-w parts gives the parts back |
| Codec.ChunksAllBits | Transmission/transmission_lib.py:76 | a text whose pieces are all binary is binary |
| Codec.AsciiToBin | Transmission/transmission_lib.py:72-74 | ASCII-to-binary succeeds exactly when every character is below 128 and otherwise raises KeyError; the result has eight binary digits per character, and byte i reads as the code of character i |
| Codec.BinToAscii | Transmission/transmission_lib.py:69-77 | binary-to-ASCII raises ValueError exactly when the length is not a multiple of 8, and KeyError exactly when some byte does not start with '0' or is not binary; otherwise character i has the value of byte i |
| Codec.ConvertAsciiBin | Transmission/transmission_lib.py:53-77 | mode 1 succeeds exactly on ASCII text; mode 2 raises ValueError exactly when the length is not a multiple of 8; any other mode returns None (the copy at Lib/Transmission_Lib.py lines 26-50 has the same body) |
| Codec.AsciiRoundTrip | Transmission/transmission_lib.py:53-77 | converting ASCII text to binary and back gives the text |
| Codec.BinRoundTrip | Transmission/transmission_lib.py:53-77 | a binary text made of whole bytes that each start with '0' converts to ASCII and back to itself |
| Codec.BinToQpsk | Transmission/transmission_lib.py:97-102 | binary-to-QPSK raises ValueError exactly on odd length, and KeyError exactly on even length with a non-binary digit; otherwise symbol i is the QPSK phase indexed by the pair of digits i |
| Codec.QpskToBin | Transmission/transmission_lib.py:103-105 | QPSK-to-binary succeeds exactly when every phase is one of 45, 135, 225 and 315, and otherwise raises KeyError; the result has two binary digits per phase, which index that phase |
| Codec.ModQpskBin | Transmission/transmission_lib.py:80-105 | mode 1 on bits raises ValueError exactly on odd length and succeeds exactly on even binary text; mode 2 on phases succeeds exactly when all are QPSK phases; a mode of the wrong kind succeeds exactly on an empty signal, and otherwise mode 1 on an even-length list raises TypeError and mode 2 on a text raises KeyError; other modes return None (the copy at Lib/Transmission_Lib.py lines 53-78 has the same body) |
| Codec.BinQpskRoundTrip | Transmission/transmission_lib.py:80-105 | modulating an even-length binary text and demodulating the phases gives the text back |
| Codec.QpskBinRoundTrip | Transmission/transmission_lib.py:80-105 | demodulating QPSK phases to binary and modulating again gives the phases back |
| Codec.Wrap | Transmission/transmission_lib.py:272 | `(phase + 360) % 360` lies in [0, 360) and differs from the phase by a whole number of turns |
| Codec.Quantize | Transmission/transmission_lib.py:275-282 | a wrapped phase maps to the QPSK phase of its 90-degree quadrant |
| Codec.ThresholdPhases | Transmission/transmission_lib.py:252-284 | every input phase yields exactly one output, the QPSK phase of the quadrant of the wrapped phase |
| Codec.QuantizeFixes | Transmission/transmission_lib.py:270-282 | each QPSK phase is left unchanged by thresholding |
| Codec.ThresholdIdempotent | Transmission/transmission_lib.py:252-284 | thresholding already thresholded phases changes nothing |
| Codec.ThresholdDemodulates | Transmission/transmission_lib.py:252-284 | every thresholded list demodulates to binary without a KeyError |

## Left out

- `generate_hex_key` (Chiffrement/chacha_lib.py:69-79) is `key.encode('utf-8').hex()`. The model takes its result, the key and nonce text, as a parameter.
- The driver (Chiffrement/Test_Chiffrement.py:49-55) pads a key or nonce text with zeros up to 64 characters whenever its length is not 32. A text of 33 to 63 characters becomes 64 characters long, a text longer than 64 is left as it is, and a text of exactly 32 characters is not padded. With such a 32-character key, `key[32:40]` is empty and setup raises ValueError. The driver's own passphrases give 26- and 30-character texts, and ChaCha.DriverRoundTrip assumes the padded 64-character texts that result. The driver's final `.decode("utf-8")` is not modelled, because it is a library call; the lemma stops at the bytes.
- The driver's test mode calls `test_chacha20_ops`, which the library does not define, so that call would raise. It is not modelled.
- ChaCha.ParseWord: Python's `int(…, 16)` also accepts surrounding whitespace, a sign, a `0x` prefix, underscores between digits and any Unicode decimal digit (such as the Arabic-Indic digit one). The model accepts only hexadecimal digits, and rejects those texts with ValueError.
- ChaCha.Block: state words are 64-bit vectors, so a context whose list holds non-integers, negative integers or integers of 2^64 or more is outside the model. Python's `state[i] % 256` would still take a key byte from a negative word in the tail of the list. A block needs the first sixteen words below 2^33, which setup and every earlier block guarantee.
- ChaCha.Setup: when `chacha20_setup` raises at store j, the assignments to `state[0]` through `state[j-1]` have already been made to the caller's list. The model returns only the error and does not describe that partly written list.
- ChaCha.Encrypt: when Python raises in the middle of the loop, the context object has already been partly changed. The model returns only the error. A character above 255 is rejected before the loop, because `bytes([…])` raises on the first such byte and the text is never returned.
- ChaCha.Encrypt: the nonce field of the context is kept but never read, as in the source.
- The module constants `CHACHA20_KEY_SIZE`, `CHACHA20_IV_SIZE` and `CHACHA20_BLOCK_SIZE` are never used by the library. Only the state size of 16 appears.
- Codec.ThresholdPhases: phases are exact reals. Floating-point rounding, NaN and infinities are not modelled. A NaN phase matches no branch and would be dropped, which the model cannot express.
- Codec.BinToQpsk: numpy arrays become sequences of integers.
- Codec.ModQpskBin: a signal is either a text of digits or a list of integer phases. Other Python values, such as floats, nested lists or None, are not modelled.
- Codec.ChunksAllBits: this lemma states one direction, from the pieces to the whole text. The other direction is part of Codec.Chunks' own contract.
- Signal generation, FFT phase detection, plotting, `gene_signal_transmis`, `phases_detection` and the prediction/LSTM code are numerical or I/O code outside this model.
