# ListProc: what its text files promise

ListProc keeps its state in text files and string-encoded tables: the reverse index
of users, the owners file, the confirmation cookies, the moderated messages, the
tables of archive subscribers, the INDEX files of the archives, the configuration
files of the lists, and the files that list owners edit and lock. Each part of this
project models one of them twice: as the program has it, a class or a method over
buffers, text, arrays or linked nodes with the program's own loops, and as what it
stands for, a map, a list of records or a state of a protocol. The methods are proved
equal to a specification function for every input they accept; lemmas connect the
specification to the abstract value and carry it over every run of requests.

| part | modules |
|---|---|
| strings, buffers and files of lines | Text, TextFiles, Buffers, LineFiles, Streams, AddressText, AddressLaws |
| reverse user index (lplib/lprevdbm.c) | RevRecords, RevUpdate, RevIndex, RevLaws, RevFastDelete |
| moderated messages and file pieces | Moderated, RemoveMsg, Splitter |
| owners file | Owners, OwnersLaws, OwnersLookup |
| confirmation cookies | Cookies, CookieLaws, CookieRuns |
| editing, holding and locking a list | ListFiles, ListLaws, ListEffects |
| archive subscribers and delivery (commands/afd_fui.c) | TableLines, FoldedTables, AfdTables, AfdUpdates, AfdRows, AfdStatus, AfdArchive, AfdRuns, AfdEffects, DeliveryLists, Delivery, DeliveryLaws, DeliveryAddresses, DeliveryPass1, DeliveryRecipients, DeliveryModes |
| archive INDEX files | ArchiveIndex, ArchiveLaws, ArchiveRuns |
| configuration files of lists | Numbers, ListConfig, ConfigLines, ConfigLaws, ConfigRoundTrip, CommandTable |

`dafny verify dfyconfig.toml` checks everything.

## Where the code does less than its comments say

Each of these is a lemma, with the exact condition under which the code does meet
the promise:

- A cookie of zeros redeems a spent request of the same length once more, and a
  cookie that is the time of the last purge redeems the first line of the file
  (CookieLaws.FaithfulIffNotMisread).
- EDIT and PUT read the keyword "i" as different files, so a stale PUT of "i" forces
  an EDIT of another file and is refused again (ListLaws.ResentPutIsAccepted).
- remove_msg and discard differ on a message that has a header line in front of its
  tag (RemoveMsg.RemoveIsDiscard).
- The last piece but one of a split file can end inside a line
  (Splitter.LastWindowPiece, Splitter.EndsWellIff).
- Unsubscribing from a file also takes every file whose name starts with it out of
  the user's record, but not the user out of that file's record; and an address
  written in two ways is one user in one table and two in the other
  (AfdRuns.TransposedIff).
- A file that is there in a plain and a compressed form of different times counts as
  changed every time (DeliveryModes.AlwaysChangedIff).
- A path with an extra slash loses the password (ArchiveRuns.LastSlot). Of two
  directories with one name below a third the first made is found
  (ArchiveRuns.ResolvesIff, ArchiveRuns.FirstMadeWins).
- An owner whose address is the word "manager" can end the manager's lock
  (ListLaws.ManagerLockEndsIff).
- The full delete of a list writes the name of the list anew in every record, the
  fast delete only where a role is cleared (RevFastDelete.FastIsFull).
- A list called SERVER gets no comment of its own, and one called SYSTEM_WIDE,
  FOR_LIST_MAIL or FOR_MAIL_REQUESTS no threads (ConfigLines.CommentOfServer,
  ConfigLines.ThreadsOfSystem).
- A list for which WHICH is disabled cannot be read back: WHICH starts the name
  WHICH-OWNED, so the reader refuses the line as ambiguous
  (ConfigRoundTrip.ConfigIsReadBack, CommandTable.ReadBackUnlessWhich).
- A list with both archive bits set does not get both back from its configuration
  file (ConfigRoundTrip.BothArchiveBits), and a program path that starts with the
  name of the installation directory, but is not in it, is cut
  (ConfigRoundTrip.PathBackIff).

## Model

| member | source | states |
|---|---|---|
| RevUpdate.FindPointer | lplib/lprevdbm.c:199-211 | the character scan stops at the first line whose list name is the one wanted, case ignored, and nowhere else |
| RevUpdate.UpdateValue | lplib/lprevdbm.c:893-1068 | cutting the string in place (EOS written over newlines and blanks) and printing the new record gives exactly the text that the pure update of the same text gives, for every text, damaged ones included |
| RevUpdate.LookupIn | lplib/lprevdbm.c:178-299 | the in-place lookup answers as the pure lookup does: the three fields, a zero mask for a missing list, or an error for a record that lacks a blank |
| RevRecords.UpdateTextRefines | lplib/lprevdbm.c:893-1068 | on a text that encodes records, the edited text encodes the updated records, or is no text at all when none is left |
| RevRecords.LookupTextRefines | lplib/lprevdbm.c:178-299 | on a text that encodes records, the lookup returns what is recorded for that list, case ignored |
| RevRecords.MaskRoundTrip | lplib/lprevdbm.c:1058-1060 | a mask printed in decimal is read back as the same mask |
| RevRecords.UpdateIsMapUpdate | lplib/lprevdbm.c:893-1068 | for every update option: a lookup afterwards gives the new value for that list and the old value for every other, records stay one for each list, masks stay nonzero, and passwords are kept only with a role that uses them |
| RevRecords.PutKeepsOthers | lplib/lprevdbm.c:893-1068 | the records of the other lists are unchanged and in the same order |
| RevRecords.TextFits | lplib/lprevdbm.c:1042-1062 | mask digits and passwords of at most 80 characters fit the computed buffer; with text on both sides of the record the bound is exact |
| RevIndex.RevDb.GetList | lplib/lprevdbm.c:178-299 | a lookup in the database answers with the fields stored for that user and list |
| RevIndex.RevDb.Rewrite | lplib/lprevdbm.c:313-347 | one user is replaced, put or deleted; every other key keeps its text |
| RevIndex.RevDb.UpdateListUsers | lplib/lprevdbm.c:1186-1259 | popping addresses off the list updates those users and no others |
| RevIndex.RevDb.AddListAdmins | lplib/lprevdbm.c:1157-1174 | the index after the four passes over the administrators |
| RevIndex.RevDb.AddList | lplib/lprevdbm.c:1083-1142 | the index after administrators and subscribers are added |
| RevIndex.RevDb.DeleteList | lplib/lprevdbm.c:758-861 | fast and full delete, by their effect on the whole database |
| RevIndex.RevDb.ClearAll | lplib/lprevdbm.c:835-854 | the cursor loop reaches every key once, in any order, and rewrites or deletes it |
| RevLaws.UserUpdated | lplib/lprevdbm.c:313-347 | an update changes the entry of one user for one list and no other entry |
| RevLaws.UsersUpdated | lplib/lprevdbm.c:1186-1259 | an address list with repetitions updates each listed user once in effect |
| RevLaws.FullyDeleted | lplib/lprevdbm.c:835-854 | a full delete clears the given bits of the list in every record and leaves the other lists alone |
| RevLaws.RebuildMirrors | commands/put.c:211-212 | from any database, a full delete of all roles followed by adding the list makes each user's entry exactly what the list says (union of roles, list password for administrators, subscription password for subscribers), other lists untouched |
| RevLaws.PasswordChangeRepaired | commands/configuration.c:1873-1878 | when the list password has changed, adding the administrators again is enough to make the index agree with the list |
| RevFastDelete.OneByOne | lplib/lprevdbm.c:776-833 | clearing the five roles one after another, where present, clears the mask of all of them |
| RevFastDelete.FastIsFull | lplib/lprevdbm.c:776-854 | for an index that mirrors the list and every mask: the two deletes leave the same database, text for text, if and only if every record that writes the name of the list in another case has one of the roles of the mask |
| Moderated.ModeratedFiles.Discard | commands/discard.c:141-210 | the file without the span found; a missing tag changes nothing |
| Moderated.ModeratedFiles.Approve | commands/approve.c:151-240 | the same, and the mail file gets the approval line and the message without its From line |
| Moderated.FindMessage | commands/discard.c:160-190 | the search in the mapped file with its last byte hidden, back to the start of the message and on to its end |
| Moderated.MessageLocated | commands/discard.c:169-205 | for lines a ++ message ++ b the bytes taken are the message's lines and the bytes left are those of a ++ b |
| Moderated.LocateFinds | commands/discard.c:169-180 | a message is found if and only if the tag stands on a line other than the first and the last |
| Moderated.BodyOfMessage | commands/approve.c:195-225 | what is mailed is the message without its first line, when that is a From line |
| Moderated.FromLineSkipped | commands/approve.c:208-216 | the From line is skipped with its carriage return, newline or both; what is mailed is exactly what follows |
| Moderated.WholeMessage | commands/approve.c:208-216 | a message that does not begin with one is mailed whole |
| RemoveMsg.RemoveMessage | lplib/misc.c:3107-3149 | the loop that holds one line back computes the machine run over the lines |
| RemoveMsg.StoreRun | lplib/misc.c:3121-3143 | over a whole store of messages: others are kept whole, and of each message with the tag only the lines in front of the one before the tag stay |
| RemoveMsg.NumberScanned | lplib/misc.c:3121-3143 | a tag behind blanks is read with its sign, up to the first character that is no digit |
| RemoveMsg.RemoveAbsentIsIdentity | commands/approve.c:105-115 | with the tag absent the store is written back unchanged, so the second removal is harmless |
| RemoveMsg.DiscardTakesMessage | commands/discard.c:169-205 | in a store a ++ [x] ++ b exactly x is taken out, and a ++ b is left |
| RemoveMsg.RemoveIsDiscard | lplib/misc.c:3121-3143 | the delayed-copy machine leaves the same store as discard if and only if the message has no header line between its From line and its tag |
| Splitter.NextPiece | commands/get.c:465-478 | one window: the backward scan finds the piece size and never seeks before the first byte |
| Splitter.Send | commands/get.c:436-491 | the loop ends, with the pieces of the whole file |
| Splitter.PiecesPartition | commands/get.c:436-491 | pieces are contiguous, each at most the limit, carry the file's bytes in order, and are at least ceil(size/limit) in number |
| Splitter.FullWindowPiece | commands/get.c:465-478 | a piece of a full window ends at the last newline of the window unless the window has none after its first byte |
| Splitter.LastWindowPiece | commands/get.c:465-478 | in the last, shorter window: the piece ends in front of the end of the file if and only if the last newline is within reach but further from the end than the window is short, and then it ends inside the last line |
| Splitter.EndsWellIff | commands/get.c:465-478 | for every window, full or last: whether the piece ends at the end of a line or of the file, or cuts a line |
| AddressText.ExtractAddress2 | lplib/sender.c:1101-1146 | the quote and bracket counting loop computes the address a text starts with |
| AddressText.PlainAddressRead | lplib/sender.c:1101-1146 | a plain address is read up to the blank behind it |
| AddressLaws.GroupRead | lplib/sender.c:1101-1146 | an address with a part in quotation marks or brackets is read whole: blanks, and in quotation marks brackets, do not end it |
| AddressLaws.UnclosedIsNone | lplib/sender.c:1101-1146 | a part that is not closed on its line, or that a comma cuts off, makes the whole no address |
| AddressLaws.SpoiltIsNone | lplib/sender.c:1101-1146 | nor is a text with a pattern character behind its plain start |
| AddressLaws.CommaEnds | lplib/sender.c:1101-1146 | a comma ends an address |
| LineFiles.LineFile.ReadLine | lplib/sender.c:640-644 | fgets at the start of a line returns that line |
| LineFiles.LineFile.WriteAt | lplib/sender.c:660-667 | writing inside a line changes that line alone |
| Owners.ProcOwner | lplib/sender.c:611-679 | the scan with reuse_offset and reuse_len leaves exactly the lines of the specification: the entry blanked, put into the last blank slot that is long enough behind the first line, or appended |
| Owners.SetPreference | commands/set.c:746-808 | the same for a preference change: rewritten in place when it fits, else blanked and stored elsewhere |
| OwnersLaws.EntryRead | lplib/sender.c:640-679 | an entry in a slot is read back with its owner, list and preferences, whatever the padding |
| OwnersLaws.ProcOwnerIsMapUpdate | lplib/sender.c:611-679 | adding inserts an absent owner and leaves a present one alone, removing removes; no other key changes and keys stay unique |
| OwnersLaws.SetPreferenceIsMapUpdate | commands/set.c:746-808 | the preferences of a known owner are replaced and nothing else changes |
| Owners.UnquotedIs | commands/set.c:754-755 | a text without quotation marks is stored as it is, and put in quotation marks it loses them |
| OwnersLaws.PreferencesAreStored | commands/set.c:746-808 | after SET PREFERENCE with a mode, in quotation marks or not, a known owner has that mode in upper case, an unknown one has nothing, and all other entries are what they were |
| OwnersLaws.CommandsKeepShape | commands/set.c:746-808 | lines keep their places and lengths; only blank lines and the key's own line change; the file grows by one line at most |
| OwnersLaws.GrowsForWantOfSlot | lplib/sender.c:640-679 | a line is appended only when every blank line behind the first is too short |
| OwnersLookup.OwnerListed | lplib/sender.c:718-749 | the line-parsing lookup answers whether some line has the key |
| OwnersLookup.MmapOwnerListed | lplib/sender.c:787-860 | the byte search in the upper-cased mapped file gives the same answer for every canonical file, with the overwritten last byte, the first line, the last line and the size == len shortcut |
| OwnersLookup.SearchRest | lplib/sender.c:816-853 | the loop over newlines and the check of the last line find an entry behind the first line exactly when there is one |
| OwnersLookup.HitIsKey | lplib/sender.c:787-853 | on a canonical line, finding the text "owner list" followed by a blank or the end is the same as parsing that key |
| OwnersLookup.CommandsKeepCanonical | lplib/sender.c:611-679 | both commands keep the file in the format on which the two lookups agree |
| Cookies.CookieMaker.CreateConfCookie | commands/confirmation.c:823-854 | time, process and a counter that goes up with each cookie |
| Cookies.SaveConfRequest | commands/confirmation.c:785-818 | one line is appended |
| Streams.ExtractSubscriber | lplib/sender.c:1212-1249 | the character loop over the file computes the address and how far it has read |
| Cookies.FindLine | commands/confirmation.c:555-564 | the scan stops at the first line whose first word is the cookie |
| Cookies.GetConfRequest | commands/confirmation.c:522-617 | the cookie of that line is overwritten with zeros and what follows it is returned; nothing else is written |
| Cookies.RemoveExpiredCookies | commands/confirmation.c:639-778 | for every first line: the file is left alone, or rewritten with a new stamp and the lines that are young enough |
| Cookies.DoConfirmedRequest | commands/confirmation.c:335-346 | purge, then the cookie of the body, then the cookie of the header |
| CookieLaws.CookieInjective | commands/confirmation.c:823-854 | cookies are equal only for the same time, process and count |
| CookieLaws.RedeemIsTake | commands/confirmation.c:522-617 | redeeming turns the live request of the cookie into a spent one and returns its user and request; any other cookie changes nothing |
| CookieLaws.RedeemChangesOneCookie | commands/confirmation.c:577-589 | whatever the file holds, at most the bytes of one cookie change, and the length stays |
| CookieLaws.FaithfulIffNotMisread | commands/confirmation.c:522-617 | redeeming does so on every well-formed file if and only if the presented cookie is neither a printed number nor at least five zeros; a cookie with a dash is neither |
| CookieLaws.StampMisread | commands/confirmation.c:555-564 | presenting the time of the last purge redeems the line below it |
| CookieLaws.SpentMisread | commands/confirmation.c:555-564 | presenting zeros redeems a spent cookie of that length again |
| CookieLaws.FileNoBlank | commands/confirmation.c:785-818 | no line the program writes is blank, so the redeeming loop always compares with the word of its own line |
| CookieLaws.NothingToAnswer | commands/confirmation.c:590-617 | a last line with a user but no request, and a line without a user, answer nothing |
| CookieRuns.PurgeRefines | commands/confirmation.c:687-746 | the text of the purged file is the text of the purged items, in every case for the first line |
| CookieRuns.PurgeExact | commands/confirmation.c:687-746 | a purge that is due keeps exactly the unexpired live requests, in order, and no spent one; otherwise nothing changes |
| CookieRuns.PurgedForADay | commands/confirmation.c:669-686 | after a purge nothing changes until more than a day is over or the clock has gone back; then the file has a new stamp |
| CookieRuns.RunInv | commands/confirmation.c:335-346 | after every run each live request was saved, was not redeemed and is there once, and nothing live had expired at the stamp |
| CookieRuns.RedemptionIsOfASave | commands/confirmation.c:343-350 | a successful confirmation returns the user and request of an earlier save under that cookie, less than (days + 1) * 86400 seconds old |
| CookieRuns.RedeemedAtMostOnce | commands/confirmation.c:522-617 | after a redemption a confirmation with the same cookie alone finds nothing, and one that finds something has redeemed another save by another cookie |
| CookieRuns.SavedIsRedeemable | commands/confirmation.c:522-617 | a saved request that was not redeemed and has not expired is redeemed when its cookie is presented |
| ListFiles.ListDir.Edit | commands/edit.c:40-274 | who is refused, which file is sent, and that a locking EDIT stamps it and takes the edit lock |
| ListFiles.ListDir.Put | commands/put.c:59-249 | which PUT is rejected, stale or stored, and the new state in each case, the forced EDIT included |
| ListFiles.ListDir.PutOver | commands/put.c:325-371 | a modified file is not touched; otherwise it is overwritten, its stamp goes, and the edit lock goes with the last stamp |
| ListFiles.ListDir.UnlockEdit | commands/put.c:27-35 | the edit lock is dropped if and only if no stamp is left |
| ListFiles.ListDir.CopyMessageBody | commands/put.c:376-394 | the lines in front of the signature |
| ListFiles.ListDir.AddToListAliases | commands/put.c:257-277 | nothing is added while the aliases are being edited |
| ListFiles.ListDir.HoldFree | commands/hold_free.c:25-246 | the new hold, lock, limit file, edit lock and stamps for every request, actor and current holder |
| ListLaws.EditLockIffStamped | commands/put.c:27-35 | after every run of requests the edit lock is there if and only if some stamp is |
| ListLaws.StampIsOfLastEdit | commands/edit.c:27-31 | a stamp holds the time the file had when it was last sent for editing |
| ListLaws.SameTimeSameVersion | commands/put.c:283-299 | if every write changes the time of its file, equal times mean equal texts and no write in between |
| ListLaws.AcceptedPutIsOfLastEdit | commands/put.c:325-371 | a PUT accepted while a stamp exists overwrites exactly the text the last locking EDIT sent, and nobody has written the file since |
| ListLaws.EditMeansPutUnlessI | commands/edit.c:171-265 | EDIT and PUT mean the same file by a keyword if and only if it is not "i" |
| ListLaws.ResentPutIsAccepted | commands/put.c:334-353 | after a stale PUT and its forced EDIT the same PUT is accepted if and only if the keyword is not "i" |
| ListLaws.ManagerHoldSurvives | commands/hold_free.c:93-233 | nothing but the manager's own requests ends the manager's hold, in any run |
| ListLaws.ManagerLockSurvives | commands/hold_free.c:93-233 | nor his lock, unless an owner who is not the manager is called "manager" and the list has a password |
| ListLaws.ManagerLockEndsIff | commands/hold_free.c:93-233 | some run without the manager ends his lock if and only if there is such an owner |
| ListLaws.OwnerLockEndsIff | commands/hold_free.c:93-233 | an owner's lock changes if and only if the manager locks or unlocks, or that owner unlocks |
| ListLaws.OwnerLockSurvives | commands/hold_free.c:93-233 | so it stands through every run without such a request |
| ListEffects.KeywordMeans | commands/edit.c:171-265 | EDIT and PUT mean by a keyword the file whose name it starts, in any case; "i" starts two names, and means one file to EDIT and the other to PUT |
| ListEffects.MayIff | commands/put.c:82-104 | who is served: the manager with the password of the server, others with that of the list, a manager of subscriptions for two files |
| ListEffects.PutReplaces | commands/put.c:325-371 | an accepted PUT leaves in its file exactly the lines of the message in front of the first signature, no other text changes, the stamp goes; an outdated one changes no text |
| ListEffects.PutAdds | commands/put.c:109-157 | PUT ... ALIAS and PUT ... IGNORE leave the old lines and exactly one more |
| ListEffects.PutIsOutdated | commands/put.c:325-353 | a stale PUT by mail is answered by an EDIT of the same keyword, an interactive one changes nothing at all |
| ListEffects.PutRefusals | commands/put.c:109-250 | a PUT with the wrong number of arguments, of no file, or of a file that is read-only changes nothing |
| ListEffects.BodyIs | commands/put.c:376-394 | the body is the message in front of its first line that reads like the signature, or all of it |
| ListEffects.OthersChangeNothing | commands/put.c:82-104 | a request that is not served changes nothing |
| ListEffects.EditSends | commands/edit.c:171-265 | a served EDIT sends the lines of its file, and stamps it just when it is not for browsing only |
| ListEffects.EditRefusals | commands/edit.c:149-170 | an EDIT of no file, or with anything but -nolock behind the file, is refused |
| ListEffects.SentAndPutBack | commands/put.c:325-371 | what EDIT sent, put back at once, leaves every text as it was |
| ListEffects.AliasAdds | commands/put.c:257-277 | a confirmed alias is one line more, unless the aliases are being edited |
| ListEffects.HoldsAndLocks | commands/hold_free.c:93-130 | HOLD and LOCK: the manager always gets the list, an owner only when nobody has it, others never; HOLD touches the hold only and LOCK the lock only |
| ListEffects.Frees | commands/hold_free.c:131-233 | FREE ends every hold but the manager's, which he alone ends, and resets the limit just then |
| ListEffects.Unlocks | commands/hold_free.c:131-233 | UNLOCK by the manager or by the one who locked ends the lock and every edit; otherwise nothing changes |
| TableLines.WordsMore | lplib/misc.c:3815-3854 | what is written behind a line of an SFT is read behind what the line lists |
| TableLines.PairsMore | lplib/misc.c:3815-3854 | the same for the addresses and modes of an FST line |
| TableLines.EntriesValid | lplib/misc.c:3815-3854 | what is read from a line is read back when it is printed |
| FoldedTables.CopyRests | commands/afd_fui.c:765-776 | copying the continued lines of a record up to its last newline |
| FoldedTables.RefoldRests | commands/afd_fui.c:789-818 | the loop with file_kept and append_slash prints the kept entries, line by line, with a backslash between lines only |
| FoldedTables.RefoldFolded | commands/afd_fui.c:789-818 | the refolded lines list exactly the kept entries, have no dangling continuation, and vanish when nothing is kept |
| FoldedTables.WithEntryFolded | commands/afd_fui.c:765-782 | adding an entry, on the last line or on a new one, adds it to what is listed |
| AfdTables.RewriteRec | commands/afd_fui.c:749-920 | one turn of the update loop: a comment is dropped, a matching record changed, any other copied |
| AfdTables.ReadUserHead | commands/afd_fui.c:962-966 | extract_subscriber reads the user of the next record |
| AfdTables.ReadFileHead | commands/afd_fui.c:749-752 | fscanf reads the file and its time |
| AfdUpdates.UpdateSft | commands/afd_fui.c:938-1053 | the text of the SFT after an add, a delete of a file or of a user |
| AfdUpdates.UpdateFst | commands/afd_fui.c:725-932 | the text of the FST after an add or a delete of a user |
| AfdRows.ChangedRefines | commands/afd_fui.c:765-818 | a changed record is well formed again and lists what it should |
| AfdRows.UpdateRefines | commands/afd_fui.c:725-932 | parsing the new text gives the abstract insertion or removal applied to what the old text listed: other records unchanged, none left without members |
| AfdRows.NoComments | commands/afd_fui.c:753-760 | no comment survives an update |
| AfdStatus.SubscribedToArchive | commands/afd_fui.c:1062-1132 | the answer is that of the first record of the user, case ignored: not subscribed, subscribed to the archive, or to the file or to all |
| AfdArchive.Archive.Subscribe | commands/afd_fui.c:587-628 | both tables after a subscription, or neither changed |
| AfdArchive.Archive.Unsubscribe | commands/afd_fui.c:635-670 | both tables after an unsubscription, "*" included, or neither changed |
| AfdRuns.UpdatedCount | commands/afd_fui.c:725-932 | what an update does to how often each entry is listed |
| AfdRuns.AlwaysTransposed | commands/afd_fui.c:587-670 | after every run of subscriptions and unsubscriptions the two tables are exact transposes with equal modes, no pair twice, nothing else listed |
| AfdRuns.TransposedIff | commands/afd_fui.c:587-670 | for all sets of addresses and files: every run over them leaves transposes if and only if no address is written in two ways and no file name starts another |
| AfdRuns.PrefixBreaks | commands/afd_fui.c:1003-1007 | the run that shows the condition on file names is needed, for any file f that starts another file g |
| AfdRuns.CaseBreaks | commands/afd_fui.c:798-811 | the run that shows the condition on addresses is needed: subscribed as a, unsubscribed as b |
| AfdEffects.StatusMeans | commands/afd_fui.c:1062-1132 | in a table after any run: subscribed means that the file or "*" is listed for the user, not subscribed that nothing is |
| AfdEffects.SubscribeDoes | commands/afd_fui.c:587-628 | a subscription lists the file for the user once with its mode in both tables and changes no other pair; if he has the file or "*" already, nothing changes |
| AfdEffects.UnsubscribeDoes | commands/afd_fui.c:635-670 | an unsubscription is done if the user has the file, or any file when it is from "*"; afterwards he has it, or any, in neither table, and no other pair changes |
| AfdEffects.EveryStepDoes | commands/afd_fui.c:587-670 | the same for every request of every run |
| AfdEffects.AddedToLine | commands/afd_fui.c:765-782 | a new entry goes on the last line of its record if that stays within 80 characters with the name in front, else on a line of its own |
| DeliveryPass1.FileUpdated | commands/afd_fui.c:1725-1793 | the new time of a file whose time is not the recorded one, 1 for "*", else 0 |
| DeliveryPass1.ListRecord | commands/afd_fui.c:1479-1556 | a record puts at most one node in front of each list, with its D and its other addresses |
| DeliveryPass1.Pass1 | commands/afd_fui.c:1434-1566 | the two lists after all marked archives |
| DeliveryLists.FileList.Push | commands/afd_fui.c:1676-1691 | a node in front; the list stays doubly linked |
| DeliveryLists.FileList.Unlink | commands/afd_fui.c:1697-1706 | a node taken out, at the head or not; the list stays doubly linked |
| DeliveryLists.FileList.AddAddresses | commands/afd_fui.c:1665-1693 | the first node of the file gets the addresses, else a new node in front |
| Delivery.FileUpdatedRaw | commands/afd_fui.c:1801-1828 | the file exists and the modification table does not have its time |
| Delivery.Pass2 | commands/afd_fui.c:1572-1718 | walking the list while nodes are pushed in front and unlinked visits each old node once and computes the expansion |
| DeliveryLaws.VisitedOf | commands/afd_fui.c:1572-1718 | each file gets what it had and then what the nodes for all files give it, in order |
| DeliveryLaws.VisitedShape | commands/afd_fui.c:1572-1718 | no node for all files is left, and no file gets two nodes |
| DeliveryAddresses.RemoveDupAddr | commands/afd_fui.c:1834-1871 | each node keeps the last occurrence of each address |
| DeliveryAddresses.LastOnlyOrder | commands/afd_fui.c:1834-1871 | the addresses that are kept stand in the order of their last places |
| DeliveryAddresses.JoinedRead | commands/afd_fui.c:1834-1871 | a text of addresses is read back |
| DeliveryRecipients.BuildLists | commands/afd_fui.c:1303-1316 | the three passes together |
| DeliveryRecipients.FirstPass | commands/afd_fui.c:1434-1566 | after pass 1 a file goes to its subscribers if and only if it has changed |
| DeliveryRecipients.Recipients | commands/afd_fui.c:1434-1871 | a file goes, without repetition, exactly to its D (or N) subscribers if it changed since its FST time, and to the D (or N) "*" subscribers of an archive that has it if it changed since its FMT time |
| DeliveryRecipients.FirstPassDistinct | commands/afd_fui.c:1434-1566 | pass 1 makes one node at most for each file, if no file has two records |
| DeliveryRecipients.FinalShape | commands/afd_fui.c:1572-1871 | the finished lists have no node for all files and, if no file has two records, one node at most for each file |
| DeliveryRecipients.DeliveredFromTexts | commands/afd_fui.c:1303-1316 | from well-formed texts of files tables in which no file has two records: the finished lists have that shape, and each file goes exactly to those who are to get it, nobody twice |
| DeliveryModes.ModeIsBehindLast | commands/afd_fui.c:1501-1505 | the letter behind the last separator of a mode tells a delivery from a notification |
| DeliveryModes.TimeIsRead | commands/afd_fui.c:1479-1490 | the file and the time that a subscription writes are those that are read |
| DeliveryModes.OthersSendNothing | commands/afd_fui.c:1454-1475 | an archive that is not marked, or whose table cannot be copied, sends nothing |
| DeliveryModes.UpdatedIff | commands/afd_fui.c:1725-1793 | file_updated finds a time that a form of the file has and the table has not, if there is one |
| DeliveryModes.AlwaysChangedIff | commands/afd_fui.c:1765-1780 | a file counts as changed whatever time the table has if and only if its plain and its compressed form have different times |
| DeliveryModes.ChangedIff | commands/afd_fui.c:1801-1828 | a file has changed for the subscribers of all files if and only if a form of it is there whose time the modification table does not have |
| DeliveryModes.SentByMode | commands/afd_fui.c:1434-1871 | a file is sent to exactly those whose entry for it or for "*" has the mode D, and those are notified whose entry has the mode N |
| DeliveryModes.SentAsSubscribed | commands/afd_fui.c:587-1871 | after every run of subscriptions and unsubscriptions a changed file is sent to exactly the users whom the subscribers table has with it or with "*" and the mode D; with N they are notified |
| DeliveryModes.SubscriberIsServed | commands/afd_fui.c:587-1871 | one who subscribes to a file with a mode is served in that mode when the file has changed, and not in the other |
| ArchiveIndex.ArchiveTree.SplitPath | lplib/misc.c:3517-3560 | the loop over the slashes fills the slots of the directories |
| ArchiveIndex.ArchiveTree.MatchLines | lplib/misc.c:3587-3602 | which directories an INDEX already has |
| ArchiveIndex.ArchiveTree.MakeIndexes | lplib/misc.c:3493-3624 | the INDEX files after a call |
| ArchiveIndex.ArchiveTree.WalkPath | commands/archive.c:835-889 | the component-by-component walk through the INDEX files |
| ArchiveLaws.CleanDirs | lplib/misc.c:3517-3560 | the slots of a path without extra slashes are its directories, one below the other |
| ArchiveRuns.LineRead | lplib/misc.c:3604-3619 | name, path, mark and password are read back from a line that was written |
| ArchiveRuns.MakeNames | lplib/misc.c:3493-3624 | a call gives a name in an INDEX to the first directory on its path, at or below that INDEX, that has the name, unless the INDEX had the name before |
| ArchiveRuns.MakeCovers | lplib/misc.c:3493-3624 | a call brings every INDEX on its path up to date and removes no line |
| ArchiveRuns.RepeatAddsNothing | lplib/misc.c:3587-3619 | repeating a call adds no line |
| ArchiveRuns.CallsNeedNoRepeat | lplib/misc.c:3587-3619 | after any run, repeating any of its calls changes no file |
| ArchiveRuns.RunNames | lplib/misc.c:3493-3624 | after any run of calls, each name in each INDEX stands for the directory that had it first |
| ArchiveRuns.WalkIsFirst | commands/archive.c:835-889 | the walk of any path after any run of calls: directory, mark and password, found from the paths of the calls alone |
| ArchiveRuns.ResolvesIff | commands/get.c:111-174 | after any run of calls a path and its ancestors resolve if and only if each directory on it is the first of its name, case ignored, that a call put at or below the directory above it |
| ArchiveRuns.FirstMadeWins | commands/archive.c:855-864 | whether the path of a call resolves is settled when the call is made: no later call breaks it or repairs it |
| ArchiveRuns.AlwaysResolves | commands/archive.c:835-889 | if each name stands for one directory, the path of every call and its ancestors resolve after every run |
| ArchiveRuns.LastSlot | lplib/misc.c:3555-3561 | the last slot, the only one whose line gets the password, is used if and only if the path has no slash too many |
| ListConfig.WriteConfig | commands/configuration.c:2120-2241 | the lines that are written, in their order, for every list |
| ListConfig.WriteAddresses | commands/configuration.c:2142-2161 | one line for each address of a list of addresses |
| ListConfig.WriteCommands | commands/configuration.c:2179-2186 | one line for each command whose bit is set |
| ListConfig.ConfigReader.ReadFile | lplib/misc.c:672-690 | the loop over the lines, continued ones joined, stopping at the first error, and what is pending at the end acted on |
| ConfigLaws.ContinuedIsOne | lputil/lpconfig.c:50-88 | a directive in any number of pieces, each line but the last marked, is read as the one line that the pieces make in their order |
| ConfigLaws.CutOffIsOne | lputil/lpconfig.c:50-88 | so is one that the end of the file or a comment cuts off |
| ConfigLaws.CommentChangesNothing | lputil/lpconfig.c:72-76 | a comment between two directives changes nothing |
| ConfigLines.ReadThreads | lplib/misc.c:962-1000 | the number of threads comes back, cut to what the system can spare, and none is an error |
| ConfigLines.ThreadsOfSystem | lplib/misc.c:962-976 | the threads of the system or of mail requests are not those of a list, even of a list of that name |
| ConfigLines.CommentOfServer | lplib/misc.c:1195-1204 | the comment of the server is not that of a list, even of a list of that name |
| ConfigLines.ReadSharpComment | lplib/misc.c:1195-1230 | a comment of a list that begins with # gets a blank in its place |
| ConfigLines.NumbersStop | lplib/misc.c:1794-1808 | numbers are read up to the first word that starts none |
| ConfigLines.NumberAndMore | lplib/misc.c:1794-1808 | a number with letters behind it is the last that is read |
| ConfigLines.ReadMask | lplib/misc.c:1794-1808 | both mask words come back from their decimal text |
| ConfigLines.ReadArchive | lplib/misc.c:1736-1793 | directory, file, archive path and password, the password "-" included, come back |
| ConfigLines.ReadDisable | lplib/misc.c:1150-1194 | the bit of a command that is written comes back if its name starts no other name; else the file is refused as ambiguous |
| ConfigLines.ReadPasswd | lplib/misc.c:1044-1059 | a one-word password comes back; without a password the list's name is taken |
| ConfigLines.ReadMta | lplib/misc.c:1362-1380 | host and port come back, "-" standing for no host |
| ConfigLines.ProgramIsRead | lplib/misc.c:1835-1975 | off, default and a program with its arguments come back, with the directory of the installation left out and put in again |
| ConfigLines.UnknownFilter | lplib/misc.c:1835-1905 | an unknown word is ignored for the filter program |
| ConfigLines.UnknownArchive | lplib/misc.c:1905-1975 | and it is an error for the web archive |
| ConfigLaws.ReadDefaults | lplib/misc.c:1517-1602 | the whole default block comes back, preferences of several words included |
| ConfigLaws.BlockComment | lplib/misc.c:1517-1602 | a comment or an empty line in a default block changes nothing |
| ConfigLaws.ReadModerators | lplib/misc.c:1447-1465 | the addresses come back in order, one line each |
| ConfigRoundTrip.ConfigIsReadBack | commands/configuration.c:2120-2241 | a reset list that reads the written file has every value written (masks, archive, address lists, defaults, digest, ceiling, comment, disabled commands, keywords, password, threads, host, programs) if and only if no disabled command has a name that starts another one; else the file is refused |
| CommandTable.OnlyWhich | bins/listproc/listproc.c:2549-2607 | of the 51 names of the program WHICH alone starts another, WHICH-OWNED |
| CommandTable.ReadBackUnlessWhich | bins/listproc/listproc.c:2549-2607 | with the commands of the program the file is read back if and only if WHICH is not disabled |
| ConfigRoundTrip.BothArchiveBits | lplib/misc.c:1783-1792 | the mask comes back if and only if the two archive bits are not both set |
| ConfigRoundTrip.PathBackIff | commands/configuration.c:2209-2216 | an absolute program path comes back if and only if it does not start with the directory's name without being inside it |

## Left out

- File locking, signals, temporary files, mail and log messages: each command is taken as one step on its files.
- MAX_LINE: lines longer than the fixed buffers, and what fgets does with them; memory that runs out.
- Masks wider than 16 bits in the reverse index; the bits in use fit.
- RevRecords.TextFits: states the bound on the text that is printed; the buffer itself is a Dafny string.
- OwnersLookup.MmapOwnerListed: models the answer; the preferences it copies out are in upper case while owner_listed leaves their case alone, so they are not compared.
- OwnersLaws.ProcOwnerIsMapUpdate: for plain addresses (no quotes, brackets, blanks or pattern characters) and one-word list names in upper case, as the callers pass them.
- Owners.SetPreference: for files in which no line starts with white space other than a blank.
- owner_listed with the array of owners in memory, and the reverse-index calls at the start of proc_owner.
- Cookies.GetConfRequest: for files without blank lines, which the program never writes; on a blank line the C code compares with the word of an earlier line.
- Time and process numbers are natural numbers without overflow; the clock, the process number and the contents of uninitialised buffers are parameters.
- ListFiles.ListDir.Edit: REPORTS is not part of this model; every file exists.
- ListFiles.ListDir.Put: the global aliases file that the manager's PUT ... ALIAS also writes, and the rebuild of the reverse index after PUT ... SUBSCRIBERS (RevLaws.RebuildMirrors is about that).
- Legal runs in ListLaws assume that every write changes the modification time of its file; without that a PUT can overwrite a version nobody has seen.
- AfdUpdates.UpdateFst: AFD_FUI_UPDATE_MOD_TIME, and update_fmt; also the flags of the nodes and the send step of afd_fui_deliver, which is not part of this model.
- AfdUpdates.UpdateSft: for tables without blank lines whose comments have a blank behind their first word, and whose continuation marks stand behind a blank, as the program writes them; a one-word comment swallows the record below it.
- AfdRuns.AlwaysTransposed: for addresses written in one way each and file names none of which starts another; AfdRuns.TransposedIff shows that this is needed.
- DeliveryPass1.Pass1: the times in the files table are numbers, and DIR files and modification tables are given as lists of what their lines say.
- ArchiveIndex.ArchiveTree.WalkPath: the manager's CREATE and MODIFY, which go on after a missing name; making the directories and the DIR files.
- ArchiveRuns.ResolvesIff: for paths of plain words without extra slashes.
- DeliveryRecipients.Recipients: for directories in which no file name starts with "*"; the passes themselves need no such condition.
- ConfigRoundTrip.ConfigIsReadBack: for values that can stand on a line (ConfOk) and files none of whose lines ends in `&` or starts with `#`; `restrict` lines are read and ignored, as the code does.
- ListConfig.Directive: the directives of the system-wide file; default blocks are read line by line, which is how they are written.
- The regular-expression engine, Berkeley DB, the TCP client, help texts, statistics, fax and remote lists.
