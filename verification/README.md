# A verified model of the token's self-contained algorithms

This project models, in Dafny, the parts of a PKCS #11 software token that decide something on their own: the policy
for object attributes, CMS verification around the cryptography, the atomic installation of a configuration file, the
hand-written codecs, the option parser with its in-place permutation, and the handle allocator. Each part is stated the
way the program has it, with loops, arrays and objects that change, and proved against functions whose own laws are then
proved for all inputs or all runs. `dafny verify dfyconfig.toml` checks everything.

| file | what it is about |
|---|---|
| `Rotation.dfy` | exchanging two adjacent blocks in place by gcd cycles (`permute_args`) |
| `Getopt.dfy` | `getopt_internal` and `getopt_long`, and what a whole loop of calls does to the vector |
| `CommandLine.dfy` | what the words of a command line mean to that loop, read straight off the declared options |
| `Cryptoki.dfy`, `Attributes.dfy` | stored values, templates, tokens; what one template entry may do to an object |
| `Objects.dfy` | the attribute tables of six object classes and `saveTemplate` over an object with transactions |
| `Permissions.dfy` | what each operation must name, may name and may change, class by class, read off the footnotes |
| `Policy.dfy` | flags that move one way only, over every life of an object |
| `KeyValues.dfy` | a secret key's check value and length stay in step with its value |
| `Retrieval.dfy`, `Readback.dfy`, `WrapTemplates.dfy` | reading attributes back, and the laws between writing and reading |
| `CertificateChain.dfy`, `SignedAttributes.dfy`, `CmsVerification.dfy`, `EnvelopeVerdict.dfy` | the chain walk, the canonical signed attributes, the calls of a verification, and what an envelope is vouched for |
| `AtomicInstall.dfy`, `InstallerProgram.dfy` | concurrent installers as interleaved system calls over names and inodes, and the program that issues them |
| `Der.dfy`, `Base64.dfy`, `DumpFile.dfy`, `Octets.dfy` | codecs |
| `Handles.dfy` | handles recycled first in, first out |
| `Wrappers.dfy` | a value that may be missing |

How the parts are put together:

- A *token* is a record of functions: encryption with an explicit initialisation vector, decryption, the key check value
  and the first three bytes of a SHA-1 digest. `Cryptoki.Sound` says what is assumed of the ciphers: decryption undoes
  encryption, ciphertexts have at least 32 bytes and are longer than the plaintext, and nothing decrypts to nothing.
- An *object* is a map from attribute types to values. A token object has a copy on disk that a transaction goes back to;
  the transactions of a session object are stubs, as in `SessionObject.cpp`.
- A function such as `Attributes.StoreValue` gives the result code and the attributes left behind, after an error too;
  the method of the same purpose in `Objects.P11Object` writes the attributes one at a time and is proved equal to it.
- A *command line* (`CommandLine.CommandLine`) is a program's name, uses of options spelled out in words, plain words
  between them, and an end. Every vector is one, and what the option loop tells and leaves behind is stated for each use.
- A *life* of an object (`Policy.Life`) is any sequence of C_GetAttributeValue, C_SetAttributeValue and C_CopyObject
  calls, whatever their outcomes and whoever is logged in; privacy upgrades in a copy re-encrypt every byte string. Each
  of these calls first wraps the object in the class that `newP11Object` finds for it, a parameter here, which stores a
  default for every attribute of the class that is missing (`ObjectClass.Init`). An object that has them all is *settled*
  (`Policy.Settled`); the first wrapping settles it, for good.
- What an envelope is worth (`EnvelopeVerdict.Judge`) rests on a `Host`: decoding, digests, signature checks, allocation
  and the answers of OpenSSL are functions of their arguments, and the rest is as in the program.
- Certificates are records of names, a CA flag, a validity flag and an identity; signature checks are a relation.

Four places where the code does less than a reader would expect are stated as theorems with their exact condition:

- A refused C_SetAttributeValue leaves no trace exactly on objects that are not modifiable and on settled objects that
  live on the token or are trusted certificates (`Policy.CleanFailure`). On a session object the entries before the
  refused one stay (`Policy.LabelStays`); and on an object that lacks attributes of its class, such as one stored before
  an attribute was introduced, the defaults given to it by the wrapping stay, on the token too (`Policy.DefaultsStay`).
- An object stored without all attributes of its class can be changed by the first call on it, reading included. A key
  without CKA_NEVER_EXTRACTABLE comes to claim it (`Policy.LifeTightens`), a key without CKA_VALUE_LEN gets the length 0
  (`KeyValues.LifeInStep`), and a certificate without CKA_PRIVATE, private to its callers until then, becomes public, so
  that what is being set is sealed and then read as it is (`Readback.SetReadsExactly`).
- An offered CKA_CHECK_VALUE is compared with the key's own for every type that exposes one, but a CKK_GOST28147 key
  takes anything (`KeyValues.CheckValueAccepted`).
- The chain walk is greedy. It misses a path within its reach exactly when on its way it takes a wrong turn: the issuer
  that it takes leads to no trusted certificate in the steps that are left, and another issuer of the same certificate
  does (`CertificateChain.MissesExactly`). Two issuers of one name are enough for that (`CertificateChain.GreedyCanMiss`);
  where no certificate has two verified issuers it cannot happen (`CertificateChain.WalkComplete`).

The comment over `P11Attribute` footnote 12 speaks of attributes that cannot be changed once false; nothing in `update`
looks at that footnote. CKA_EXTRACTABLE gets the rule from its own `updateAttr`, and CKA_COPYABLE cannot be set or copied
over at all. The model follows the code.

## Model

| member | source | states |
|---|---|---|
| Rotation.ComputeGcd | src/bin/win32/getopt.cpp:128-141 | the loop computes Euclid's gcd |
| Rotation.GcdBezout | src/bin/win32/getopt.cpp:128-141 | the gcd divides both arguments, with coefficients that combine the quotients to 1 |
| Rotation.GcdIsGreatest | src/bin/win32/getopt.cpp:128-141 | every common divisor is at most the gcd |
| Rotation.CoprimeIsOneCycle | src/bin/win32/getopt.cpp:161-180 | with coprime block lengths the hops visit every row once and return |
| Rotation.Columns.StopsDiffer | src/bin/win32/getopt.cpp:161-180 | the gcd cycles are disjoint and each has (end-start)/gcd distinct stops |
| Rotation.Columns.StopsCover | src/bin/win32/getopt.cpp:161-180 | together the cycles stop at every position of the window |
| Rotation.Columns.SwapStep | src/bin/win32/getopt.cpp:168-178 | one swap moves exactly the words whose row it concerns one hop on |
| Rotation.Columns.WindowDone | src/bin/win32/getopt.cpp:161-180 | after all cycles each position holds the word of the other block that belongs there |
| Rotation.FollowCycle | src/bin/win32/getopt.cpp:166-179 | one turn of the outer loop puts the words of its cycle, and no others, in place |
| Rotation.PermuteArgs | src/bin/win32/getopt.cpp:148-180 | in place, the window becomes old[mid..end] followed by old[start..mid] and nothing else changes |
| Getopt.Parser.constructor | src/bin/win32/getopt.cpp:84-113 | the initial globals are a valid start for every vector and every configuration |
| Getopt.PickIsPermutation | src/bin/win32/getopt.cpp:187-267 | marked words followed by unmarked ones are the same words |
| Getopt.PartitionedIsPermutation | src/bin/win32/getopt.cpp:187-267 | the final vector is a permutation of the original with the program name first |
| Getopt.Parser.SkipNonOption | src/bin/win32/getopt.cpp:247-259 | skipping a non-option, with the exchange it may need, keeps the vector a partition of what was scanned |
| Getopt.Parser.Finish | src/bin/win32/getopt.cpp:211-228 | at the end the vector is partitioned and `optind` is the first non-option |
| Getopt.Parser.NextOption | src/bin/win32/getopt.cpp:208-260 | the `goto` loop stops at the next option word of the original vector, or answers as specified |
| Getopt.Parser.BeginWord | src/bin/win32/getopt.cpp:261-266 | stepping past the dashes, telling short from long options |
| Getopt.Parser.StepLetter | src/bin/win32/getopt.cpp:268-332 | one option letter: result, argument, `optopt` and position, for unknown, plain, required, optional and `W;` letters |
| Getopt.Parser.ReadLetter | src/bin/win32/getopt.cpp:268-332 | the same letter, keeping the scanning position valid |
| Getopt.Parser.GetoptInternal | src/bin/win32/getopt.cpp:187-333 | one call answers, or returns -2 with the text of the long option, as the original vector has it |
| Getopt.Parser.MatchLong | src/bin/win32/getopt.cpp:415-442 | the matching loop: first exact name before a second partial one, a single abbreviation, or ambiguity |
| Getopt.Parser.TakeLong | src/bin/win32/getopt.cpp:409-519 | the long option's result, argument and errors, and how many words it uses up; what that comes to, word by word, is CommandLine.UseRead |
| Getopt.Parser.ReadLong | src/bin/win32/getopt.cpp:381-519 | the -2 path, `--` included, keeps the partition and ends the scan where it should |
| Getopt.Parser.GetoptLong | src/bin/win32/getopt.cpp:370-519 | every call answers with the event that the original, unshuffled vector has at this point; what the events are, word by word, is CommandLine.UseRead |
| Getopt.SeeStep | src/bin/win32/getopt.cpp:187-519 | the sequence of reports begins with this call's and goes on from the position it leaves |
| Getopt.StopOfStops | src/bin/win32/getopt.cpp:187-407 | where a run of calls stops: at the end of the vector, at a word that is no option where those end the scan, or just behind `--` or an empty word taken for a long option |
| Getopt.ParseAll | src/bin/export/softhsm2-export.cpp:131-160 | a whole loop of calls sees the options of the original vector and leaves `optind` at the first non-option: after the options, both in original order, when it permutes, and where the scan of the original vector stops when it does not |
| CommandLine.LetterKinds | src/bin/win32/getopt.cpp:268-332 | whether a letter takes no argument, one, perhaps one, or stands for two dashes is as its place among the colons of the option string says |
| CommandLine.MatchesPicked | src/bin/win32/getopt.cpp:415-442 | a long name is found exactly when it is the first exact one, or no name is exact and it is the only abbreviation, and then that option is found |
| CommandLine.UseRead | src/bin/win32/getopt.cpp:187-519 | at every use of an option the call tells that option with its argument, or the error that the use is, and the scan goes on behind the words of the use, all of which count as options: two where the argument is a word of its own, one where it is joined on or there is none |
| CommandLine.EndRead | src/bin/win32/getopt.cpp:187-407 | the end of a command line is told as such and stops the scan behind its own words: `--`, an empty long text, an argument that is missing, a plain word where those end the options, or nothing |
| CommandLine.CommandLineRead | src/bin/export/softhsm2-export.cpp:131-160 | what `ParseAll` sees and leaves, by what was written: exactly the uses with their arguments; then the options with their arguments in front and the plain words behind, or the vector untouched with `optind` behind the options |
| CommandLine.EveryVectorReads | src/bin/win32/getopt.cpp:187-519 | every vector with a program's name is such a command line |
| Attributes.UpdateFrame | src/lib/P11Attributes.cpp:397-521 | whatever the outcome, an entry touches only its own attribute and the ones coupled to it |
| Attributes.UpdateFits | src/lib/P11Attributes.cpp:397-521 | stored values keep the type their attribute class reads |
| Objects.ApplyFits | src/lib/P11Objects.cpp:217-245 | so do whole templates |
| Objects.ApplyChain | src/lib/P11Objects.cpp:217-245 | an accepted template has a chain of states, each entry accepted in the one left by its predecessors |
| Objects.ChainApplies | src/lib/P11Objects.cpp:217-245 | and such a chain makes the template accepted |
| Objects.SaveAccepts | src/lib/P11Objects.cpp:190-302 | OK exactly when the operation is permitted, every entry is known and accepted in turn, and every mandatory attribute is named |
| Objects.SaveRefuses | src/lib/P11Objects.cpp:190-302 | any other code is that of the first failing check |
| Objects.OSObject.StartTransaction | src/lib/object_store/ObjectFile.cpp:774-806 | re-reads the file; refused inside a transaction; a stub on session objects |
| Objects.OSObject.CommitTransaction | src/lib/object_store/ObjectFile.cpp:809-840 | the disk copy becomes the attributes |
| Objects.OSObject.AbortTransaction | src/lib/object_store/ObjectFile.cpp:843-871 | the attributes go back to the disk copy; on session objects nothing happens |
| Objects.P11Object.constructor | src/lib/P11Objects.cpp:64-114 | wrapping fixes class and key type and defaults every missing attribute of the class |
| Objects.P11Object.UpdateText | src/lib/P11Attributes.cpp:56-71 | the base `updateAttr`: the bytes, sealed on a private object |
| Objects.P11Object.UpdateSensitive | src/lib/P11Attributes.cpp:1773-1812 | CKA_SENSITIVE with CKA_ALWAYS_SENSITIVE |
| Objects.P11Object.UpdateExtractable | src/lib/P11Attributes.cpp:1839-1872 | CKA_EXTRACTABLE with CKA_NEVER_EXTRACTABLE |
| Objects.P11Object.UpdateCopyable | src/lib/P11Attributes.cpp:749-776 | CKA_COPYABLE can be cleared and never set again |
| Objects.P11Object.UpdateGuardedFlag | src/lib/P11Attributes.cpp:1135-1169 | CKA_TRUSTED, CKA_WRAP_WITH_TRUSTED and CKA_ALWAYS_AUTHENTICATE with their guards |
| Objects.P11Object.UpdateCheckValue | src/lib/P11Attributes.cpp:850-933 | CKA_CHECK_VALUE is stored or refused as the stored key decides |
| Objects.P11Object.UpdateValue | src/lib/P11Attributes.cpp:969-1099 | CKA_VALUE, then the length, then the check value, each write in turn |
| Objects.P11Object.UpdateTemplate | src/lib/P11Attributes.cpp:2388-2472 | the loop over a nested template, first element of a type winning (WrapTemplates.StoredElements) |
| Objects.P11Object.UpdateMechanisms | src/lib/P11Attributes.cpp:2585-2604 | the loop over an array of mechanism types |
| Objects.P11Object.UpdateEntry | src/lib/P11Attributes.cpp:397-521 | the checks of `update` in their order come to the policy as a function |
| Objects.P11Object.CheckMandatory | src/lib/P11Objects.cpp:247-281 | the loops over table and template find a mandatory attribute that is not named; which those are, class by class, is Permissions.CompleteExactly |
| Objects.P11Object.SaveTemplate | src/lib/P11Objects.cpp:190-302 | in place: a token object gets the whole template or nothing, a session object keeps what came before a failure |
| Objects.SetAttributeValue | src/lib/SoftHSM.cpp:3505-3557 | in place: nothing on an object that is not modifiable; otherwise the defaults that wrapping stores, which stay, and then the template, which on a token object is taken whole or not at all |
| Permissions.ClassSays | src/lib/P11Objects.cpp:469-2003 | the footnotes of every type of every class are those of explicit lists: what must be named to create, generate and unwrap, what must not be, and what can be set and changed in a copy |
| Permissions.CompleteExactly | src/lib/P11Objects.cpp:247-281 | a template is complete exactly when it names the listed types: for secret keys CKA_CLASS, CKA_KEY_TYPE and CKA_VALUE to create, a length to generate, CKA_KEY_TYPE to unwrap; and what EC and GOST keys and certificates add |
| Permissions.SaveNeeds | src/lib/P11Objects.cpp:190-302 | OK exactly when the operation is permitted, a chain of accepted entries exists and the listed types are named; an incomplete template is the one that lacks a listed type |
| Permissions.CreatedInFull | src/lib/SoftHSM.cpp:17369-17470 | an object that was created was named in full |
| Permissions.LeastCreates | src/lib/SoftHSM.cpp:17369-17470 | and for every class the template that names just those types, with any value, is accepted on a token whose encryption does not fail |
| Permissions.ForbiddenRefused | src/lib/P11Attributes.cpp:447-475 | a type on the list of what must not be named is refused, whatever its value, and nothing changes |
| Permissions.AlterableExactly | src/lib/P11Attributes.cpp:397-521 | exactly the entries on the lists of their operation, on an object open to it, reach their own `updateAttr`; any other is refused and changes nothing |
| Permissions.FlagEntry | src/lib/P11Attributes.cpp:1773-1961 | what an entry for each flag does, from the byte that is passed: when it is allowed, the value it gets, and how CKA_ALWAYS_SENSITIVE and CKA_NEVER_EXTRACTABLE rise and fall with it |
| Permissions.NumberRule | src/lib/P11Attributes.cpp:535-620 | what an object is can be repeated and not changed, what became of a key cannot be said, a length can be asked of a new key only, and other numbers are stored |
| Permissions.ShapeRefused | src/lib/P11Attributes.cpp:1210-1250 | dates, arrays of templates and arrays of mechanisms of the wrong length are refused |
| Permissions.ValueSets | src/lib/P11Attributes.cpp:969-1099 | the value of a key from outside sets its length, that of a certificate its check value |
| Permissions.TrueByDefault | src/lib/P11Attributes.cpp:1748-1752 | exactly which flags are true where nothing was said |
| Policy.OnlyTheSOTrusts | src/lib/P11Attributes.cpp:1135-1169 | CKA_TRUSTED becomes true only with the SO logged in, whatever the operation |
| Policy.OnlyPrivateAuthenticates | src/lib/P11Attributes.cpp:1932-1961 | CKA_ALWAYS_AUTHENTICATE becomes true only on private objects |
| Policy.UpdateTightens | src/lib/P11Attributes.cpp:431-520 | one SET or COPY entry moves every protection flag its one way only and never changes class or key type |
| Policy.UpdateCoherent | src/lib/P11Attributes.cpp:1773-1812 | every operation, creation included, keeps "always sensitive implies sensitive" |
| Policy.SaveTightens | src/lib/P11Objects.cpp:190-302 | so does a whole template, accepted or not, for each object class |
| Policy.InitSettles | src/lib/P11Objects.cpp:64-114 | wrapping leaves an object that a second wrapping does not change |
| Policy.InitShelters | src/lib/P11Objects.cpp:64-114 | wrapping protects any object no less, and makes no difference to whether it can be modified or copied |
| Policy.InitClaimsThePast | src/lib/P11Attributes.cpp:1748-1752 | but a key without CKA_NEVER_EXTRACTABLE comes to claim that it never was |
| Policy.InitTightens | src/lib/P11Objects.cpp:64-114 | wrapping claims nothing new about the past, and keeps class and key type, exactly if the object is of the class it is wrapped in and, being a key, has CKA_NEVER_EXTRACTABLE; other attributes may be missing |
| Policy.LifeSettled | src/lib/SoftHSM.cpp:523-538 | every sequence of calls keeps an object settled |
| Policy.LifeShelters | src/lib/SoftHSM.cpp:3505-3557 | over every sequence of calls on any object, settled or not, later states are at least as protected as earlier ones, and always-sensitive keys stay sensitive |
| Policy.LifeTightens | src/lib/SoftHSM.cpp:3505-3557 | in every life of an object no later state is less protected, claims more about its past or is of another class or key type, exactly if that is so of the first wrapping (Policy.InitTightens) |
| Policy.PrivacyAgrees | src/lib/SoftHSM.cpp:3090-3111 | the privacy stored by an accepted creation or copy is the one its ciphertexts were made for |
| Policy.SavePrivacy | src/lib/P11Objects.cpp:190-302 | setting never changes CKA_PRIVATE; creating and copying change it to what the template says |
| Policy.CreatePrivacy | src/lib/SoftHSM.cpp:389-485 | the privacy that C_CreateObject takes from the template before there is an object is the one the object gets |
| Policy.LabelStays | src/lib/P11Objects.cpp:217-245 | a concrete failing template that leaves a session object changed |
| Policy.DefaultsStay | src/lib/object_store/ObjectFile.cpp:209-233 | a call refused at its first entry leaves an unsettled object with the defaults of its class, wherever it lives |
| Policy.CleanFailure | src/lib/SoftHSM.cpp:3505-3557 | every refused C_SetAttributeValue leaves the object as it was exactly if the object is not modifiable, or has every attribute of its class and lives on the token or is a trusted certificate |
| KeyValues.SealedOpens | src/lib/P11Attributes.cpp:73-94 | what is sealed for an object opens to the plaintext, private or not |
| KeyValues.StoreValueInStep | src/lib/P11Attributes.cpp:969-1099 | after a CREATE of CKA_VALUE the check value and the length are those of the value |
| KeyValues.ApplyInStep | src/lib/P11Attributes.cpp:850-1099 | so after any accepted CREATE, SET or COPY template, in any order and with repetitions |
| KeyValues.DuplicateInStep | src/lib/SoftHSM.cpp:3137-3176 | copying, with or without sealing, keeps them in step |
| KeyValues.InitInStep | src/lib/P11Objects.cpp:64-114 | wrapping keeps a key in step exactly if it has CKA_VALUE_LEN, where its class has one, or an empty value |
| KeyValues.LengthInvented | src/lib/P11Objects.cpp:64-114 | a key with a value and no length, to which wrapping gives the length 0 |
| KeyValues.LifeInStep | src/lib/SoftHSM.cpp:3505-3557 | under the same condition, and under no other, a key in step stays so through every life |
| KeyValues.KeyStaysInStep | src/lib/P11Attributes.cpp:850-1099 | from C_CreateObject through every later GET, SET and COPY the check value decodes to nothing or to the key's, and the length is the value's |
| KeyValues.CheckValueAccepted | src/lib/P11Attributes.cpp:850-933 | exactly which check values are accepted, and what is then stored |
| Retrieval.ListsUnique | src/lib/P11Attributes.cpp:159-252 | a set has one ascending listing |
| Retrieval.RetrieveAttributeMap | src/lib/P11Attributes.cpp:159-252 | the counting loop and the two filling loops over a nested template: every slot with room is served with its exact length and no byte behind it, up to the first that is not, which is turned away with its memory as it was and the length unavailable; those behind it are untouched |
| Retrieval.RetrieveValue | src/lib/P11Attributes.cpp:255-394 | reading one attribute: what is withheld; otherwise the exact size for a null pointer, the value exactly when the stated length is at least that size, and CKR_BUFFER_TOO_SMALL with the memory as it was and the length unavailable when it is not; no byte at or behind the stated length changes |
| Retrieval.LoadTemplate | src/lib/P11Objects.cpp:116-187 | every entry is answered as if alone, up to the first that ends the call with CKR_GENERAL_ERROR, after which none is touched; otherwise the call reports the gravest answer; whatever it reports, every entry is kept to what Retrieval.RetrievePromises says |
| Retrieval.RetrievePromises | src/lib/P11Attributes.cpp:255-394 | for every attribute and every buffer: sensitive, unknown, too small or served, with sizes read off the stored value, and no byte at or behind the stated length changed |
| Retrieval.MapServes | src/lib/P11Attributes.cpp:159-252 | the same for the slots of a nested template |
| Readback.CiphertextIsNoDate | src/lib/P11Attributes.cpp:73-94 | no ciphertext is taken for a date in the clear |
| Readback.LegacyDateReads | src/lib/P11Attributes.cpp:73-94 | a date in the clear on a private object still reads back by size and value |
| Readback.EntryPlain | src/lib/P11Attributes.cpp:56-94 | an accepted byte string or date is stored so that it reads as given |
| Readback.LastEntryReads | src/lib/P11Attributes.cpp:255-394 | after an accepted template, size pass and value pass under the privacy it was saved for give the last value named |
| Readback.ScalarReads | src/lib/P11Attributes.cpp:255-394 | numbers read back byte for byte and truth values normalised |
| Readback.MechanismsRead | src/lib/P11Attributes.cpp:2585-2604 | the allowed mechanisms are exactly the words that were given, and read back as the same set, ascending, each once |
| Readback.InitPrivacy | src/lib/P11Objects.cpp:64-114 | the privacy that callers suppose survives the wrapping exactly if the object is no certificate or says whether it is private |
| Readback.InitPlain | src/lib/P11Objects.cpp:395-410 | wrapping leaves what the bytes stand for alone exactly in that case, or where they stand for themselves |
| Readback.LifePlain | src/lib/SoftHSM.cpp:3137-3176 | a byte string keeps its plaintext through every sequence of calls that does not name it, refused calls and private copies included, exactly under that condition |
| Readback.ReaderAgrees | src/lib/P11Objects.cpp:304-312 | `loadTemplate`, which goes by the stored CKA_PRIVATE, agrees with the caller before the wrapping exactly if CKA_PRIVATE is stored as a truth value, or is missing on an object that is no certificate |
| Readback.CreateReads | src/lib/SoftHSM.cpp:17369-17470 | what an accepted C_CreateObject names, C_GetAttributeValue gives back (or may not give out) |
| Readback.SetReadsExactly | src/lib/SoftHSM.cpp:3505-3557 | so with C_SetAttributeValue, exactly on the objects for which the reader agrees and on those that take no values |
| Readback.SetLoses | src/lib/P11Objects.cpp:395-410 | on every other object a label is accepted, sealed, and read back as its ciphertext |
| Readback.CopyReadsExactly | src/lib/SoftHSM.cpp:3049-3225 | so with C_CopyObject, exactly for the objects for which the reader agrees, that take no values, are not copyable or lack CKA_CLASS |
| Readback.LifeReads | src/lib/P11Objects.cpp:116-187 | where the reader agrees, any byte string of the class is given back after any calls that do not name it |
| Readback.ProtectedForever | src/lib/P11Attributes.cpp:277-280 | once sensitive or unextractable, settled or not, every later read of an attribute under footnote 7 is refused with the memory untouched |
| Readback.ValuesUnderFootnoteSeven | src/lib/P11Objects.cpp:469-2003 | the value of every key, and not that of a certificate, is under footnote 7 |
| WrapTemplates.StoredElements | src/lib/P11Attributes.cpp:2388-2472 | an accepted template is stored element by element, the first of each type |
| WrapTemplates.AcceptedExactly | src/lib/P11Attributes.cpp:2388-2472 | it is accepted exactly when each flag has one byte and each number eight, and no element is a template |
| WrapTemplates.WrapTemplateRoundTrip | src/lib/P11Attributes.cpp:159-252 | any accepted template: size, then ascending types with exact lengths, then the values in any order asked for |
| CertificateChain.VerifyGostChain | src/lib/RutokenCMS.cpp:458-526 | the code of every outcome; success exactly when there is a sequence of at most 8 certificates in date, from the signer to a trusted one, each but the first a CA of the issuer's name whose key verifies its predecessor and the first such certificate offered; where no certificate has two such issuers, exactly when there is a sequence at all; with only the trusted and given certificates on it when the internal ones are ignored |
| CertificateChain.WalkExactly | src/lib/RutokenCMS.cpp:484-526 | the walk succeeds exactly when its path of at most 8 in-date certificates, each issued and verified by the next, ends acceptably at its first trusted one |
| CertificateChain.WalkByFields | src/lib/RutokenCMS.cpp:484-526 | the walk, in terms of the fields of the certificates and the signatures alone |
| CertificateChain.SoleByFields | src/lib/RutokenCMS.cpp:484-526 | and the existence of a path, where issuers are unique, in the same terms |
| CertificateChain.MissesExactly | src/lib/RutokenCMS.cpp:484-526 | a path within reach is missed exactly when the walk comes to a certificate whose first issuer leads nowhere in the steps left while another issuer leads to the end |
| CertificateChain.WalkSucceeds | src/lib/RutokenCMS.cpp:484-526 | success is a path of at most 8 certificates and no such wrong turn ahead |
| CertificateChain.WalkComplete | src/lib/RutokenCMS.cpp:484-526 | with at most one verified issuer per certificate, success is the existence of a path |
| CertificateChain.GreedyCanMiss | src/lib/RutokenCMS.cpp:500-522 | two issuers of one name: a path that the walk does not find |
| SignedAttributes.LeqIsPadded | src/lib/RutokenCMS.cpp:317-317 | the order of `std::sort` satisfies the zero-padded comparison of section 11.6 of X.690 |
| SignedAttributes.SortedFormUnique | src/lib/RutokenCMS.cpp:317-317 | sorting is canonical under permutation |
| SignedAttributes.Encode | src/lib/RutokenCMS.cpp:311-335 | sorting, joining and tagging give the signed input and the embedded field |
| SignedAttributes.ElementsRead | src/lib/RutokenCMS.cpp:725-739 | the attributes are found again in a concatenation |
| SignedAttributes.SameInputSameAttributes | src/lib/RutokenCMS.cpp:725-739 | the verifier's input equals the signer's exactly when it found the same attributes, in any order |
| SignedAttributes.FieldIsRetaggedInput | src/lib/RutokenCMS.cpp:311-335 | the embedded field differs from the signed input in the first octet alone and is in SET OF order |
| CmsVerification.CopyBuffers | src/lib/RutokenCMS.cpp:89-103 | the copied buffers, or the refusal of a bad array |
| CmsVerification.Verifier.VerifyInit | src/lib/RutokenCMS.cpp:1032-1096 | argument checks in order, an active operation refused last, the new state with every buffer of certificates and revocation lists in its own place |
| CmsVerification.Verifier.VerifyUpdate | src/lib/RutokenCMS.cpp:1131-1151 | the chunk is appended exactly when the whole stays within 67108864 bytes, and refused with the data as it was otherwise |
| CmsVerification.Verifier.VerifyAttached | src/lib/RutokenCMS.cpp:1098-1129 | outputs nulled, state taken, verdict passed on |
| CmsVerification.Verifier.VerifyFinal | src/lib/RutokenCMS.cpp:1153-1183 | the same for detached data, which needs an update first |
| CmsVerification.Verifier.ClearSession | src/lib/RutokenCMS.cpp:1185-1189 | the session's operation, if any, is gone and no other |
| CmsVerification.Verifier.ClearEverySession | src/lib/RutokenCMS.cpp:1191-1195 | every operation is gone |
| CmsVerification.OthersUntouched | src/lib/RutokenCMS.cpp:1032-1195 | a session's calls leave other sessions alone |
| CmsVerification.RunMatchesLedger | src/lib/RutokenCMS.cpp:1032-1195 | in every run each session's data is the concatenation of the chunks accepted since its init, within the limit |
| CmsVerification.FinalDependsOnDataAlone | src/lib/RutokenCMS.cpp:1153-1183 | `verifyFinal` depends on envelope, concatenation and whether anything was given, not on the cutting |
| CmsVerification.VerificationEnds | src/lib/RutokenCMS.cpp:1098-1183 | `verify` judges only an operation without updates and `verifyFinal` one with updates; whatever the verdict, no later call on the session finds the operation |
| EnvelopeVerdict.CheckSignature | src/lib/RutokenCMS.cpp:690-746 | algorithms, message digest, sorted attributes and signature are checked in this order, with the code of the first that fails |
| EnvelopeVerdict.VerifyGostCms | src/lib/RutokenCMS.cpp:645-782 | the whole of `verifyGostCms`, failures of allocation included: OK exactly on an envelope of one signer whose certificate, algorithms, digest, signature and chain stand, told from the fields alone, and which can be given out, with the outputs that belong to it, and null outputs otherwise; every code is that of the verdict |
| EnvelopeVerdict.VerifyRsaCms | src/lib/RutokenCMS.cpp:784-889 | the end of `verifyCms` around OpenSSL's answers: OK exactly when chain, signers and content stand and can be given out |
| EnvelopeVerdict.GostVouches | src/lib/RutokenCMS.cpp:645-782 | OK exactly when the message digest is that of the content, the signature verifies over the tagged, sorted attributes (or the content where there are none), the chain walk succeeds or only signatures are checked, and memory suffices; then the content, unless it was detached, and the signer, unless only signatures are checked, are given out |
| EnvelopeVerdict.VouchedByFields | src/lib/RutokenCMS.cpp:645-782 | what is vouched for, in terms of the fields of envelope and certificates and the literal algorithm identifiers of each key size |
| EnvelopeVerdict.RefusalCodes | src/lib/RutokenCMS.cpp:645-782 | the code for the wrong kind of data, revocation lists, certificates that do not decode and a chain that does not hold |
| EnvelopeVerdict.SignersOutExactly | src/lib/RutokenCMS.cpp:843-868 | signers are given out exactly when each can be encoded and stored, in order |
| EnvelopeVerdict.RefusedGivesNothing | src/lib/RutokenCMS.cpp:645-889 | either verification leaves every output null unless it succeeds, never gives detached data back, and gives no signers when only signatures are checked |
| EnvelopeVerdict.StoredOrderImmaterial | src/lib/RutokenCMS.cpp:725-739 | the order in which the attributes are stored makes no difference to the verdict |
| EnvelopeVerdict.SignedVerifies | src/lib/RutokenCMS.cpp:298-359 | the attributes read out of the field that `signGostCms` stores, in any order, pass the check of what it signed |
| EnvelopeVerdict.OneDigest | src/lib/RutokenCMS.cpp:712-724 | one envelope with signed attributes is vouched for with two contents only if their digests are equal |
| EnvelopeVerdict.OnlySuccessGives | src/lib/RutokenCMS.cpp:1098-1183 | in any state, only a call that succeeds leaves anything in the outputs |
| EnvelopeVerdict.FinalVouches | src/lib/RutokenCMS.cpp:1153-1183 | in every run `verifyFinal` succeeds on a GOST envelope exactly when at least one chunk was accepted and the envelope is genuine for their concatenation |
| AtomicInstall.NextKeeps | src/lib/common/SimpleConfigLoader.cpp:279-337 | every step of any installer, failures and crashes included, keeps the invariant and what it must leave alone |
| AtomicInstall.TargetAbsentOrWhole | src/lib/common/SimpleConfigLoader.cpp:279-337 | in every run the target is absent or the complete contents of one installer (or what was there before) |
| AtomicInstall.TargetNeverChanges | src/lib/common/SimpleConfigLoader.cpp:325-330 | once there it is never replaced, removed or written to |
| AtomicInstall.TrueMeansInstalled | src/lib/common/SimpleConfigLoader.cpp:279-337 | after any answer of true the target is there for good |
| AtomicInstall.OnlyOwnNamesRemoved | src/lib/common/SimpleConfigLoader.cpp:301-326 | a temporary name disappears only by the hand that made it, shared process numbers included |
| AtomicInstall.NothingLeftBehind | src/lib/common/SimpleConfigLoader.cpp:291-336 | in every run an installer that has answered, whatever it answered, has left none of its temporary names, unless removing one failed |
| AtomicInstall.FailedNeverLinks | src/lib/common/SimpleConfigLoader.cpp:313-330 | in every run a file that could not be written or closed never becomes the target |
| AtomicInstall.AlreadyInstalled | src/lib/common/SimpleConfigLoader.cpp:282-285 | a target that is there and readable is answered for at once, and nothing is touched |
| AtomicInstall.SetupFails | src/lib/common/SimpleConfigLoader.cpp:286-311 | without a directory the answer is false, and a name that cannot be made, though it is free, ends the attempts |
| AtomicInstall.AloneItInstalls | src/lib/common/SimpleConfigLoader.cpp:279-337 | undisturbed, with a free name among its hundred, an installer succeeds and leaves no temporary name |
| AtomicInstall.LuckyInstalls | src/lib/common/SimpleConfigLoader.cpp:279-337 | in every run, among any others, an installer none of whose calls fails and which finds one of its hundred names free never answers false, and answers true with the target in place within a bounded number of its own calls |
| InstallerProgram.WriteAll | src/lib/common/SimpleConfigLoader.cpp:258-277 | the loop over short writes ends with the whole contents written, or with an error |
| InstallerProgram.InstallFileAtomically | src/lib/common/SimpleConfigLoader.cpp:279-337 | with others moving between its calls and any call failing, the program goes on from the run before it by steps of the state machine to an answer, and answers true only with the target in place |
| Der.EncodeTagged | src/lib/RutokenCMS.cpp:145-158 | the two byte loops of `tagged` (there and in RutokenCSR.cpp:93-106) give the DER element |
| Der.EncodePoint | src/bin/util/softhsm2-util-ossl.cpp:946-1013 | counting from the top and filling from the back gives the same bytes for tag 4 |
| Der.TaggedReads | src/lib/RutokenCSR.cpp:93-106 | an element followed by anything decodes to tag, contents and the rest |
| Der.LengthShortest | src/lib/RutokenCSR.cpp:93-106 | no definite length is shorter, and none as short is different |
| Der.DerInteger | src/lib/RutokenCSR.cpp:120-128 | the result depends only on the value of the magnitude |
| Der.ContentValue | src/lib/RutokenCSR.cpp:120-128 | the contents decode as two's complement to that value |
| Der.ContentShortest | src/lib/RutokenCSR.cpp:120-128 | and are of minimal length, uniquely so |
| Der.IsOidExactly | src/lib/RutokenCSR.cpp:113-117 | `isOid` accepts exactly the short-form OBJECT IDENTIFIER elements |
| Base64.EncodeCanonical | src/bin/keyconv/base64.c:125-182 | every encoding is canonical text whose digits give the bytes back |
| Base64.AlphabetIs | src/bin/keyconv/base64.c:57-59 | the alphabet of section 4 of RFC 4648 |
| Base64.EncodeSpells | src/bin/keyconv/base64.c:125-182 | characters 4k to 4k+3 spell bytes 3k to 3k+2 as a 24-bit number, most significant first, zeros and `=` standing in at the end |
| Base64.CanonicalEncodes | src/bin/keyconv/base64.c:190-307 | and there is no other canonical text for them |
| Base64.EncodeInto | src/bin/keyconv/base64.c:125-182 | `b64_ntop` writes the encoding and a terminator, or -1 exactly when there is no room |
| Base64.PushInto | src/bin/keyconv/base64.c:210-253 | the four states put the bits where they belong, or stop for lack of room |
| Base64.ReadPadding | src/bin/keyconv/base64.c:260-297 | padding is accepted exactly as the state demands, white space aside |
| Base64.Decode | src/bin/keyconv/base64.c:190-307 | with a target, text is accepted exactly when it is the encoding, with white space anywhere, of bytes that fit, which are written; without one, exactly when digits and padding match |
| Base64.EncodeString | src/bin/export/softhsm2-export.cpp:64-81 | the 24-bit encoder gives the same text |
| Base64.WriteLines | src/bin/export/softhsm2-export.cpp:94-99 | the text in lines of 64 |
| Base64.WrappedAt | src/bin/export/softhsm2-export.cpp:94-99 | every 65th character ends a line and so does the last; the others are the text in order |
| Base64.RoundTrip | src/bin/export/softhsm2-export.cpp:64-98 | the text, wrapped or not, decodes to the bytes in a target with one byte to spare |
| DumpFile.ParseSerial | src/bin/dump/softhsm2-dump-file.cpp:167-301 | parsing undoes serialising |
| DumpFile.SerialParse | src/bin/dump/softhsm2-dump-file.cpp:167-301 | serialising undoes parsing, byte for byte |
| DumpFile.ParsesExactly | src/bin/dump/softhsm2-dump-file.cpp:167-301 | bytes parse exactly when they serialise a map, and then one only |
| DumpFile.SerialLayout | src/bin/dump/softhsm2-dump-file.cpp:127-301 | the kinds 1, 2, 3 and 5 and what follows each, byte by byte |
| DumpFile.Stream.ReadULong | src/bin/dump/softhsm2-dump-file.cpp:127-147 | eight bytes, most significant first, or nothing consumed |
| DumpFile.Stream.ReadMechSetValue | src/bin/dump/softhsm2-dump-file.cpp:258-291 | a count that passes the check only by wrapping round fails at the end of the stream |
| DumpFile.Stream.ReadMap | src/bin/dump/softhsm2-dump-file.cpp:167-301 | success exactly on a serialised map of the given length, all of it consumed; otherwise the position is restored |
| Handles.HandleFactory.GetHandle | src/lib/common/HandleFactory.h:59-82 | a handle that is not live and not 0: the one returned longest ago, or a new one |
| Handles.HandleFactory.DeleteHandle | src/lib/common/HandleFactory.h:97-104 | a live handle is live no more and goes to the end of the queue |
| Handles.HandleFactory.IsValid | src/lib/common/HandleFactory.h:81-87 | valid handles are the live ones |
| Handles.HandleFactory.GetObjectByHandle | src/lib/common/HandleFactory.h:89-94 | the map's entry for a live handle |
| Handles.LiveIsLastGiven | src/lib/common/HandleFactory.h:59-94 | in every run that entry is the object of the last `getHandle` that answered this handle |
| Handles.RunIsTight | src/lib/common/HandleFactory.h:59-104 | in every run live and queued handles are distinct and together 1..nextFree-1, and nextFree-1 is the peak of live handles |
| Handles.QueueInTurn | src/lib/common/HandleFactory.h:97-104 | in every run the queue lists the handles waiting to be used again in the order of their latest deletes |
| Handles.RecycledInTurn | src/lib/common/HandleFactory.h:59-82 | the queue is used up from the front, then new handles are made |
| Handles.FirstInFirstOut | src/lib/common/HandleFactory.h:59-104 | of two waiting handles the one whose latest delete is earlier in the calls is answered first |

## Left out

- Objects.P11Object.SaveTemplate: failures of the disk or of the lock file are not modelled; a transaction can only be refused because one is open.
- Objects.P11Object.UpdateValue: CKA_VALUE_BITS is not kept, because none of the six classes modelled has it, and SHA-1 is taken to be available.
- Objects.P11Object.constructor: attributes are defaulted together rather than one by one; the order makes no difference to the result.
- Retrieval.LoadTemplate: what is promised of sizes and buffers is promised for objects whose values have the types of their attributes, which every accepted or refused template keeps (Objects.ApplyFits).
- Retrieval.RetrieveValue: the caller's buffers are values that come back changed, so two template entries that point at the same memory are not modelled; memory smaller than its stated length reads as nothing.
- Handles.HandleFactory.GetObjectByHandle: requires a live handle, since the lookup inserts a default for any other; deleting requires one too.
- Handles.RunIsTight: handles are unbounded numbers; running out of 2^64 of them is not modelled.
- InstallerProgram.InstallFileAtomically: the program is followed to its answer; that it can stop at any point is a step of the state machine. Files are touched by installers only. How directories are created, the Windows branch and targets that are not regular files are not part of this model.
- CertificateChain.VerifyGostChain: decoding certificates, comparing names, times and signatures are parameters; allocation failure is not modelled.
- CmsVerification.RunMatchesLedger: calls are atomic, as the mutex makes them.
- EnvelopeVerdict.VerifyGostCms: requires that the encoded attributes of one signer are together shorter than 2^64 bytes; the digest and the verification on the token, decoding and encoding through OpenSSL are functions of their arguments; allocation inside standard containers is not modelled.
- EnvelopeVerdict.VerifyRsaCms: the decisions of OpenSSL (store, signature, chain, signers, recovered content) are parameters.
- EnvelopeVerdict.SignedVerifies: that OpenSSL finds in an envelope the attributes, digest and signature that were put there is assumed, as is that the token verifies what it signed.
- Base64.Decode: the bitwise or of disjoint bits is addition, with the disjointness proved; characters above 127 and locales are not modelled.
- Getopt.ParseAll: requires that no long option returns -1 as its value, since the loop that it models could not tell that from the end.
- Der.DerInteger: requires a non-empty magnitude, of which the source reads the first byte.
- Getopt.Parser.GetoptLong: printed warnings, the store through a long option's `flag` pointer (the returned index says which), the `getopt` wrapper and the environment variable POSIXLY_CORRECT (a parameter) are not modelled; one C function is several methods.
- Attribute classes other than those of AES, generic, DES and GOST secret keys, EC private keys and X.509 certificates: the same kinds of attributes with other tables.
- Credential checks of C_SetAttributeValue and C_CopyObject: they only refuse more.
- C_CreateObject's reordering of CKA_CHECK_VALUE and the flags it clears afterwards: the theorems hold for every order, and the flags only fall.
- The attribute map inserting a null entry for an unknown type: lookups here insert nothing, as with a fresh object for every call.
- Sessions, slots, the token store, cryptographic mechanisms, RSA signing, key import and export formats, the SQLite tools, PIN entry and logging: no algorithm of their own, or behaviour that lives in libraries.
