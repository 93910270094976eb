# SNMP configuration and MIB symbol resolution: a verified model

Two parts of ops-snmpd, each modelled as its code works and proved against a specification.

**The SNMP configuration store.** The shell commands (`src/cli/snmp_vty.c`) add and remove rows: communities, trap
receivers, v3 users and four settings. `SnmpCli.Shell` is the shell with its tables as fields and its loops as loops;
each method is proved equal to a step of `SnmpStore.Perform`. Command lines are text: `CommandGrammar` splits them into
words and matches the DEFUN patterns, so a badly printed line is refused by the grammar and not by assumption. The
database answers each command as it likes: a transaction may not start, may fail or may commit, and an inserted row
may show up at any position of the iteration order. Shells may follow each other on one database. Three readers of the same rows are modelled with it: the printer
of the running config (`RunningConfig`), the daemon that writes `snmpd.conf` (`SnmpdConf`, `EngineId`) and the v3
session of the trap sender (`TrapSession`).

**The MIB symbol resolver.** `Registration` is the symbol table generator with its postponed symbols, `BaseTypes` the
chase of a type that extends shared lists in place, `NumericOids` the expansion of object identifiers, `ImportRewrite`
the conversion of SMIv1 imports, `ParseWorklist` the parse loop of the compiler, and `TwoPasses` the agreement of the
symbol table pass and the code generation pass. `SymbolTables` builds the tables the other parts look things up in from
the declarations of accepted modules; `TypeTermination`, `TypeCircles`, `OidCircles` and `MissingModules` say what
acceptance does and does not guarantee about them, and `ParseTermination` when the parse loop ends.

## How to read it

- `words.dfy`: text lines, words, decimal numbers; splitting undoes joining.
- `store.dfy`, `grammar.dfy`, `cli.dfy`, `invariants.dfy`, `undo.dfy`: the store, the patterns, the commands, what every
  run keeps, and what a `no` form undoes. `command_lines.dfy`, `command_meaning.dfy`: what each line says and what each
  command answers and changes, in literal words and on the fields of the rows.
- `running_config.dfy`, `printed_text.dfy`, `replay.dfy`: the printer, its text, the meaning of each printed line, and
  the replay theorem.
- `engine_id.dfy`, `snmpd_conf.dfy`, `conf_directives.dfy`, `trap_session.dfy`: the readers of the store.
- `registration.dfy`, `registration_order.dfy`, `acceptance.dfy`: the generator, the theorems about its order and its
  passes, and exactly what it accepts.
- `two_passes.dfy`, `symbol_tables.dfy`, `stored_symbols.dfy`: the declarations of a module, both passes over them, the
  tables they yield, and what these hold for each declaration.
- `base_type.dfy`, `chase_meaning.dfy`, `type_termination.dfy`, `type_circles.dfy`, `default_values.dfy`: chasing a type, when the chase ends,
  and what it does to the text of other types.
- `numeric_oid.dfy`, `oid_circles.dfy`: expanding an identifier, and when the expansion ends.
- `import_rewrite.dfy`, `worklist.dfy`, `worklist_termination.dfy`, `missing_modules.dfy`: imports, the parse loop, when it
  ends, and which lookups of a module can fail after it.
- `pigeonhole.dfy`: a sequence longer than its set of values repeats one.

Results that hold with a condition, with the exact condition:

- Replaying a printed config restores all trap receivers if and only if no other receiver is printed after a v3 one and
  there are at most 31; it restores the effective description if and only if that description does not properly extend the switch version
  (`Replay.ReplayTwice`). One replay leaves out the v3 receivers, because they are printed before the users they need.
  Reachable stores fail each condition (`Replay.SomeReceiverIsLost`, `SomeDescriptionIsLost`, and `TablesGrow` for tables
  that several shells have written).
- After any run of the daemon that ends configured, `snmpd.conf` is the rendering of the database if and only if the
  daemon has written it and neither a user nor a MAC digit differs from what was last written
  (`SnmpdConf.FileFreshOverRuns`, and for one round `RunKeepsFileFresh`). Deleting the last user and changing only the
  MAC leave it stale (`LastUserGone`, `MacChangeUnseen`).
- A single pass over the postponed symbols registers everything it can if and only if the dictionary lists such symbols
  after their postponed parents (`RegistrationOrder.SinglePassIsComplete`); `ForwardChain` is a family of modules that
  the dictionary order alone accepts or refuses.
- The agent and the trap sender use the same engine ID if and only if the MAC the file was last written from has the
  digits of the MAC the sender met first, whatever it is now (`SnmpdConf.SameEngineId`, `EngineId.TrapSender`).
- A module with symbols is accepted if and only if no symbol is declared twice, every identifier parent is declared or
  imported, and at the turn of the last symbol its parents are known, every declaration is well-founded, and the
  dictionary lists what waits after its waiting parents (`Acceptance.AcceptedExactly`).
- Code generation of an accepted module finds code for every symbol if and only if its fake column counter starts where
  the symbol table pass started, or the module has no fake columns (`TwoPasses.CountersAgree`, `GenerateModule`). When
  both counters start alike this fails for a module with fake columns exactly if one parsed before it has some too
  (`RequestedModuleIsGenerated`; `SecondModuleFails` is a text of two such modules).
- The trap sender finds the user of a v3 receiver if and only if no user merely agrees with it in the 33 characters the
  shell compares (`TrapSession.SenderFindsUser`). A receiver name is found in every store shells can leave if and only if
  it has at most 32 characters (`TrapSession.AlwaysFound`); `LongNamesMissUser` gives the two lines that defeat a longer one.
- The parse loop ends if and only if no names that it meets and never finishes import each other in a circle
  (`ParseTermination.LoopEndsExactly`, for any texts under any names). When no name asked for is recorded by the text of
  another, this is a condition on the texts alone: no circle of orphans, names whose own text does not record them
  (`RequestEndsExactly`). Otherwise the order of the request can decide (`OrderDecides`).
- The expansion of an object identifier ends if and only if the calls it leads to never come back to a symbol
  (`NumericOids.FinishesExactly`; `ResolvedFinishesExactly` when all names resolve). The generator accepts circles of any
  length, because it asks only that parents exist (`OidCircles.ClausesAccepted`, `AcceptedCircle`).
- The chase of a type ends if and only if no chain from it comes back, whatever lies elsewhere
  (`TypeCircles.ChaseEndsExactly`); a measure exists if and only if no chain does (`DescendsExactly`). Accepted
  modules without circular type imports have no such chain, unless a row is also declared as a type
  (`TypeTermination.AcceptedTypesDescend`, `TypeCircles.RowsMakeCircle`).
- After a parse loop without failures a chase fails for a missing module if and only if it stops at a table class
  (`MissingModules.NoFailureMeansNoMissingModule`); an accepted table is such an input (`TableLacksModule`).
- The enumeration written for a type is the declared one if and only if no earlier default value chased through the type
  to another with an enumeration (`BaseTypes.WriteEnumerations`); an accepted module has one (`DefaultValues.DefaultChangesText`).
- The engine ID stays in its buffer with a terminator if and only if the MAC has at most 19 characters other than colons.

Where code and documentation differ, the model follows the code: `MAX_ALLOWED_SNMP_TRAPS` is 30, but the counter is
tested with `> 30` before it is incremented, so 31 receivers are accepted; the counter is never decremented, so a shell
that has accepted 31 receivers accepts no more even after all of them are removed (`Undo.WornOutShell`). It is a counter
of the shell and not of the database, so the next shell accepts 31 more (`StoreInvariants.NewShellAccepts`).

`strncmp(a, b, n) == 0` is modelled as equality of the first `n` characters, so no limit on the length of names is
assumed. `Platform` holds the two address checks made elsewhere: the A.B.C.D argument type of the shell library and
`is_valid_ip_address`.

## Model

| member | source | states |
|---|---|---|
| SnmpCli.Shell.V3UserExists | src/cli/snmp_vty.c:31-42 | the search loop finds a user exactly when some row agrees with the name in its first 33 characters |
| SnmpCli.Shell.ServerHostConfig | src/cli/snmp_vty.c:44-113 | guards in order (counter, address, user, duplicate), the message of each, one row more and counter up only on commit |
| SnmpCli.Shell.ServerHostUnconfig | src/cli/snmp_vty.c:235-267 | the delete loop removes every row equal in address, port, version and kind, whatever its community |
| SnmpCli.Shell.ConfigureSetting | src/cli/snmp_vty.c:397-434 | sets or removes one key of other_config and keeps every other key |
| SnmpCli.Shell.ConfigureDescription | src/cli/snmp_vty.c:491-529 | the reset stores the switch version instead of removing the key |
| SnmpCli.Shell.ConfigureCommunity | src/cli/snmp_vty.c:827-875 | limit before duplicate check; the array filled by index is the old list and the new name |
| SnmpCli.Shell.RemoveCommunity | src/cli/snmp_vty.c:887-932 | with distinct names, the first n - 1 slots of the array are the list without exactly that name |
| SnmpCli.Shell.ConfigureV3User | src/cli/snmp_vty.c:946-997 | a new row with the protocols given, refused for a name that agrees with a row |
| SnmpCli.Shell.UnconfigureV3User | src/cli/snmp_vty.c:1048-1093 | refused while any receiver names the user, else removes every row agreeing with the name |
| SnmpCli.Shell.Execute | src/cli/snmp_vty.c:1281-1310 | a line is dispatched to the command whose pattern it matches, and an unmatched line changes nothing |
| CommandMeaning.ClipIsSameStart | src/cli/snmp_vty.c:31-42 | equal clipped strings are those `strncmp` finds equal, character by character |
| CommandMeaning.SettingHost | src/cli/snmp_vty.c:44-113 | which of four reasons refuses a receiver, in this order, said on the rows; otherwise it is added |
| CommandMeaning.RemovingHost | src/cli/snmp_vty.c:235-267 | exactly the rows of this address, port, version and kind go |
| CommandMeaning.AnyCommunityRemoves | src/cli/snmp_vty.c:250-254 | the community of the line does not matter |
| CommandMeaning.ChangingSettings | src/cli/snmp_vty.c:397-529 | one key is set or removed, a removed description becomes the switch version, all other keys stay |
| CommandMeaning.SettingCommunity | src/cli/snmp_vty.c:827-875 | the reasons to refuse a community, in order; otherwise it is the last one |
| CommandMeaning.RemovingCommunity | src/cli/snmp_vty.c:887-932 | refused when it is not there, otherwise exactly it goes |
| CommandMeaning.SettingUser | src/cli/snmp_vty.c:946-997 | refused for a name that agrees in 33 characters, otherwise a row with the protocols and pass phrases given |
| CommandMeaning.RemovingUser | src/cli/snmp_vty.c:1048-1093 | refused while a receiver of any version names the user, otherwise exactly the rows that agree go |
| CommandMeaning.OnlyCommitsChange | src/cli/snmp_vty.c:1048-1093 | without a commit no command changes anything |
| CommandLines.CommunityHostLines | src/cli/snmp_vty.c:118-203 | what every v1 and v2c receiver line and its `no` form mean: kind, version, keywords in any order, defaults public and 162 |
| CommandLines.UserHostLines | src/cli/snmp_vty.c:146-232 | what every v3 receiver line means: the user is the community of the row |
| CommandLines.OnlyTheseHostLines | src/cli/snmp_vty.c:118-232 | no other line sets or removes a receiver |
| CommandLines.SettingLines | src/cli/snmp_vty.c:435-546 | the settings, their keys and their `no` forms |
| CommandLines.CommunityLine | src/cli/snmp_vty.c:877-885 | the community line and its `no` form |
| CommandLines.UserLines | src/cli/snmp_vty.c:999-1046 | the three user patterns, and that privacy needs authentication |
| CommandLines.OnlyTheseCommands | src/cli/snmp_vty.c:1281-1310 | no other words start a command |
| CommandLines.LeadingDigit | src/cli/snmp_vty.c:198 | numbers are decimal |
| StoreInvariants.ParsedCommandsAreGood | src/cli/snmp_vty.c:118-232 | whatever a pattern accepts has word arguments, ports in 1..65535, no v1 inform and no privacy without authentication |
| StoreInvariants.WithoutCommunityRows | src/cli/snmp_vty.c:900-906 | removing a community removes exactly it |
| StoreInvariants.RemovingKeepsUsers | src/cli/snmp_vty.c:1055-1063 | deleting a user nobody names leaves every v3 receiver its user |
| StoreInvariants.PerformKeepsValid | src/cli/snmp_vty.c:44-113 | each command keeps unique receiver keys, user names and communities, the limits, and a user for every v3 receiver |
| StoreInvariants.RunKeepsValid | src/cli/snmp_vty.c:1281-1310 | so does any script with any database answers |
| StoreInvariants.ReachableIsValid | src/cli/snmp_vty.c:1281-1310 | every store one shell leaves that started on an empty one is valid: at most 10 communities, at most 31 receivers |
| StoreInvariants.RunKeepsStored | src/cli/snmp_vty.c:49 | a shell on any store the shells before have left keeps everything but the bound on the receivers, and adds at most 31 |
| StoreInvariants.ShellsKeepStored | src/cli/snmp_vty.c:49 | over any shells one after the other the tables stay valid, with at most 31 receivers for each shell |
| StoreInvariants.NewShellAccepts | src/cli/snmp_vty.c:49-56 | a new shell accepts a new receiver, however many there are |
| Undo.NoFormParses | src/cli/snmp_vty.c:269-394 | `no` before any set line parses as the matching unset command with the same arguments |
| Undo.LineThenNo | src/cli/snmp_vty.c:235-267 | an accepted line and its `no` form restore the tables; exactly what stays behind is named |
| Undo.WornOutShell | src/cli/snmp_vty.c:51-56 | once the counter passes the limit no script ever adds a receiver |
| RunningConfig.PrintTraps | src/cli/vtysh_ovsdb_snmp_context.c:102-167 | the loop with carried flags prints each row under flags saying whether some row up to it set them |
| RunningConfig.PrintTrap | src/cli/vtysh_ovsdb_snmp_context.c:116-165 | the six branches print the fields the flags call for |
| RunningConfig.PrintUsers | src/cli/vtysh_ovsdb_snmp_context.c:168-200 | each user line shows exactly the protocols that are not the default |
| RunningConfig.PrintSettings | src/cli/vtysh_ovsdb_snmp_context.c:60-93 | a description the switch version is a prefix of is not printed |
| RunningConfig.PrintRunningConfig | src/cli/vtysh_ovsdb_snmp_context.c:44-202 | settings, communities, receivers, users, in this order |
| PrintedText.HostLineText | src/cli/vtysh_ovsdb_snmp_context.c:102-167 | the text of a receiver line: community, port and user exactly when some row up to this one has a value that is not the default |
| PrintedText.UserLineText | src/cli/vtysh_ovsdb_snmp_context.c:168-200 | the text of a user line |
| PrintedText.SettingsText | src/cli/vtysh_ovsdb_snmp_context.c:60-93 | the text of the setting lines and their order |
| PrintedText.ConfigText | src/cli/vtysh_ovsdb_snmp_context.c:44-202 | the lines of the whole config: one for each row, in this order |
| RunningConfig.HostLineMeaning | src/cli/vtysh_ovsdb_snmp_context.c:102-167 | whatever the other rows, a printed receiver line parses back to its own row, and to nothing when a v3 row came before a row that is not v3 |
| RunningConfig.UserLineParses | src/cli/vtysh_ovsdb_snmp_context.c:181-198 | a printed user line parses back to the whole user row |
| RunningConfig.SettingLineParses | src/cli/snmp_vty.c:531-546 | a printed line argument parses back to the same text |
| Replay.SettingsRun | src/cli/vtysh_ovsdb_snmp_context.c:75-93 | replaying the setting lines stores exactly the settings shown |
| Replay.CommunitiesRun | src/cli/vtysh_ovsdb_snmp_context.c:95-99 | the community lines rebuild the list on an empty one and change nothing on the rebuilt one |
| Replay.UsersRun | src/cli/vtysh_ovsdb_snmp_context.c:168-200 | the user lines rebuild the user table on an empty one and change nothing on the rebuilt one |
| Replay.TrapsRunWithoutUsers | src/cli/vtysh_ovsdb_snmp_context.c:102-167 | without users the receiver lines restore exactly the first 31 rows before the first v3 row |
| Replay.TrapsRunWithUsers | src/cli/vtysh_ovsdb_snmp_context.c:102-167 | with the users in place they add exactly the v3 rows, up to 31 in all |
| Replay.RestorableRows | src/cli/vtysh_ovsdb_snmp_context.c:113-116 | the restorable rows are all rows if and only if no other row follows a v3 row |
| Replay.ReplayPass | src/cli/vtysh_ovsdb_snmp_context.c:44-202 | what a first and what a second replay leave in the store, for any positions of the rows |
| Replay.ReplayTwice | src/cli/vtysh_ovsdb_snmp_context.c:44-202 | two replays of the config of any store that shells can leave restore it, with the exact conditions for receivers and description |
| Replay.TablesGrow | src/cli/snmp_vty.c:49-56 | shells that follow each other leave tables of any size up to one receiver for each port |
| Replay.SomeReceiverIsLost | src/cli/vtysh_ovsdb_snmp_context.c:113-116 | three lines after which a receiver stands behind a v3 one, so that replay restores only the v3 one |
| Replay.SomeDescriptionIsLost | src/cli/vtysh_ovsdb_snmp_context.c:60-73 | any typed description that properly extends the switch version makes the second condition fail |
| EngineId.CopyMac | src/snmp_ovsdb_if.c:189-197 | the loop copies the MAC without colons behind the prefix and overruns exactly past 32 characters |
| EngineId.ConfEngineId | src/snmp_ovsdb_if.c:188-198 | in the buffer with terminator if and only if at most 19 characters are copied, and then the text is prefix and MAC |
| EngineId.TrapEngineId | src/snmptrap/snmptrap_lib.c:57-72 | success if and only if at most 19 characters are copied; the check comes too late only for more than 20 |
| EngineId.TrapSender.EngineIdForTrap | src/snmptrap/snmptrap_lib.c:197-204 | the buffer is filled by the first trap and kept: only its MAC counts, and one that is too long is noticed once, later traps taking a buffer without terminator |
| EngineId.MacGivesElevenOctets | src/snmptrap/snmptrap_lib.c:57-72 | a six-octet MAC gives 22 hexadecimal digits: 11 octets, inside 5..32 of section 5 of RFC 3411 |
| EngineId.DigitsOfMac | src/snmp_ovsdb_if.c:189-197 | the characters copied are those of the MAC that are not colons, in order |
| EngineId.EngineIdOfMac | src/snmptrap/snmptrap_lib.c:57-72 | the engine ID of a six-octet MAC, character by character |
| SnmpdConf.GenerateSnmpdConf | src/snmp_ovsdb_if.c:58-210 | the written directives are the rendering of the row contents |
| SnmpdConf.WriteUsers | src/snmp_ovsdb_if.c:146-182 | the carried auth and priv variables never leak from one user to the next |
| ConfDirectives.SystemDirectives | src/snmp_ovsdb_if.c:76-120 | which value each directive of the system shows, with its default |
| ConfDirectives.UserDirectives | src/snmp_ovsdb_if.c:149-182 | the two directives of a user, by protocols |
| ConfDirectives.FileDirectives | src/snmp_ovsdb_if.c:58-210 | the place of every directive in the file, and that there are no others |
| ConfDirectives.UserIsInFile | src/snmp_ovsdb_if.c:149-182 | the directives of each user stand at the place of his row |
| ConfDirectives.CommunityIsInFile | src/snmp_ovsdb_if.c:127-138 | every community is in the file, and public when there is none |
| SnmpdConf.SnmpThread.SystemIsConfigured | src/snmp_ovsdb_if.c:25-42 | configured once cur_cfg was positive, and from then on |
| SnmpdConf.SnmpThread.Reconfigure | src/snmp_ovsdb_if.c:213-252 | writes the file exactly when a column changed, the user table counting only while it has a row |
| SnmpdConf.SnmpThread.SnmpRun | src/snmp_ovsdb_if.c:254-270 | one round: nothing before configuration, then the file and the remembered sequence number |
| ConfDirectives.ConfiguredExactly | src/snmp_ovsdb_if.c:25-42 | over any rounds the system counts as configured exactly when cur_cfg was positive in one of them |
| SnmpdConf.RunKeepsFileFresh | src/snmp_ovsdb_if.c:225-249 | the exact condition under which the file is right after a configured round |
| SnmpdConf.FileFreshOverRuns | src/snmp_ovsdb_if.c:213-270 | the exact condition over any run of reported changes, from any start, configured or not yet |
| SnmpdConf.SameEngineId | src/snmptrap/snmptrap_lib.c:197-204 | over any run, exactly when the agent and the sender use the same engine ID |
| SnmpdConf.LastUserGone | src/snmp_ovsdb_if.c:225-232 | deleting the last user makes a right file stale |
| SnmpdConf.MacChangeUnseen | src/snmp_ovsdb_if.c:234-249 | changing only the MAC digits makes a right file stale |
| SnmpdConf.FileFollowsDatabase | src/snmp_ovsdb_if.c:254-270 | along any run of followed changes the file is the rendering of the database after every configured round |
| TrapSession.FindSnmpv3User | src/snmptrap/snmptrap_lib.c:75-85 | returns a row of that exact name, and none exactly when there is none |
| TrapSession.Session.AddAuthPrivInfo | src/snmptrap/snmptrap_lib.c:87-141 | fails exactly for privacy without authentication, else sets the level and the protocols in use |
| TrapSession.SenderFindsUser | src/snmptrap/snmptrap_lib.c:227-232 | in every valid store the sender finds the user of a v3 receiver exactly when no user only agrees with it in the compared characters |
| TrapSession.ShellTellsName | src/cli/snmp_vty.c:31-42 | the shell tells a name from every other one exactly when it has at most 32 characters |
| TrapSession.AlwaysFound | src/snmptrap/snmptrap_lib.c:75-85 | over every run a receiver of this name is found, exactly when the name has at most 32 characters |
| TrapSession.LongNamesMissUser | src/cli/snmp_vty.c:65-71 | two lines after which the sender misses the user, for any two longer names the shell cannot tell apart |
| TrapSession.EveryReaderAgrees | src/snmptrap/snmptrap_lib.c:87-141 | in every valid, so every reachable, store the invalid level cannot happen and all three readers give a user the same security (section 3.4.3 of RFC 3411) |
| TrapSession.UserPartInFile | src/snmp_ovsdb_if.c:149-182 | the two directives of every user are in the file, at its place |
| Registration.SymtableCodeGen.AllParentsExists | src/pysmi/pysmi/codegen/symtable.py:410-420 | true exactly when every parent is registered, imported, a base type, a table class or a row |
| Registration.SymtableCodeGen.RegPostponedSyms | src/pysmi/pysmi/codegen/symtable.py:432-441 | one pass in an arbitrary dictionary order, registered symbols dropped afterwards |
| Registration.SymtableCodeGen.RegSymbol | src/pysmi/pysmi/codegen/symtable.py:422-430 | duplicate error exactly for a registered or postponed symbol, else register and pass, or postpone |
| Registration.SymtableCodeGen.GenerateCode | src/pysmi/pysmi/codegen/symtable.py:738-763 | accepts exactly when no duplicate occurs, nothing stays postponed and every identifier parent is declared or imported |
| RegistrationOrder.RunKeepsOrder | src/pysmi/pysmi/codegen/symtable.py:422-441 | after every declaration the order is duplicate-free, lists exactly the registered symbols, none postponed, each after its parents |
| RegistrationOrder.RegisteredAreWellFounded | src/pysmi/pysmi/codegen/symtable.py:432-441 | the code registers only symbols whose parents bottom out in external names |
| RegistrationOrder.StuckIsExact | src/pysmi/pysmi/codegen/symtable.py:432-441 | when no pass helps any more, the registered symbols are exactly the well-founded ones, in whatever order all was met |
| RegistrationOrder.OrderDoesNotMatter | src/pysmi/pysmi/codegen/symtable.py:432-441 | runs over the same declarations in any order, each with passes until none helps, register the same symbols with the same parents |
| RegistrationOrder.SinglePassIsComplete | src/pysmi/pysmi/codegen/symtable.py:432-441 | the exact condition on the dictionary order under which the single pass registers everything it can |
| RegistrationOrder.IteratedPasses | src/pysmi/pysmi/codegen/symtable.py:432-441 | iterated in any orders, the pass reaches exactly the well-founded symbols within one round per postponed symbol and one more |
| RegistrationOrder.AcceptedModule | src/pysmi/pysmi/codegen/symtable.py:749-758 | an accepted module has registered exactly what it declares, in parent order, and knows its identifier parents |
| RegistrationOrder.ForwardChain | src/pysmi/pysmi/codegen/symtable.py:754-755 | a chain of three types is accepted or refused by the dictionary order alone |
| Acceptance.RunsExactly | src/pysmi/pysmi/codegen/symtable.py:422-424 | the duplicate error occurs exactly when a symbol is named twice |
| Acceptance.AcceptedExactly | src/pysmi/pysmi/codegen/symtable.py:745-758 | the exact condition under which a module with symbols is accepted |
| Acceptance.WithoutSymbols | src/pysmi/pysmi/codegen/symtable.py:756-758 | a module without symbols is accepted exactly when its identifier parents are imported |
| Acceptance.KnownParents | src/pysmi/pysmi/codegen/symtable.py:410-420 | a parent is known exactly when it is registered, imported, a row, one of five base types or one of three table classes |
| Acceptance.OneParent | src/pysmi/pysmi/codegen/symtable.py:754-755 | a module of one symbol with one parent is accepted exactly when that is imported or one of the eight names |
| Acceptance.RowAndOidParent | src/pysmi/pysmi/codegen/symtable.py:756-758 | a row is known as a parent, and a parent of an identifier must be declared or imported |
| BaseTypes.DictAppend | src/pysmi/pysmi/codegen/pysnmp.py:743-749 | the mapping of a concatenated list is the merge, later entries winning |
| ChaseMeaning.ChainDecides | src/pysmi/pysmi/codegen/pysnmp.py:479-490 | the chase finds exactly the type of the last symbol of the chain if that is one of the five base types, else the error that type calls for |
| ChaseMeaning.EndingChaseIsChain | src/pysmi/pysmi/codegen/pysnmp.py:479-490 | every chase that ends comes through such a chain |
| ChaseMeaning.AbsentSymbol | src/pysmi/pysmi/codegen/pysnmp.py:480-483 | the two errors for a symbol that is not in the tables |
| ChaseMeaning.EnumerationOfChain | src/pysmi/pysmi/codegen/pysnmp.py:489-496 | a symbol has an enumeration exactly when one on its chain has a list, with the names of all lists |
| ChaseMeaning.NumberOfChain | src/pysmi/pysmi/codegen/pysnmp.py:489-496 | a name has the number it has in the list nearest to the base type |
| BaseTypes.GetBaseType | src/pysmi/pysmi/codegen/pysnmp.py:479-496 | for a symbol whose chase ends: though the call extends shared lists in place, exactly those it touches, the mapping of the returned list is the merge of the lists as built; errors change nothing |
| BaseTypes.GetBaseTypes | src/pysmi/pysmi/codegen/pysnmp.py:743-755 | the same after any number of calls on any symbols in any order |
| BaseTypes.WriteEnumerations | src/pysmi/pysmi/codegen/pysnmp.py:765-782 | the list written for a type is the one it declares exactly when no earlier default value extended it in place |
| DefaultValues.DefaultChangesText | src/pysmi/pysmi/codegen/pysnmp.py:708-714 | an accepted module in which the default value of an object extends the list of a type before the type is written |
| SymbolTables.AcceptedSymbols | src/pysmi/pysmi/codegen/symtable.py:665-683 | the table of an accepted module stores exactly its registered symbols, each type a registered parent in the module it is imported from |
| StoredSymbols.DeclarationIsStored | src/pysmi/pysmi/codegen/symtable.py:506-528 | what the table holds for every clause, object and type: the identifier part by part, and the type with its module |
| StoredSymbols.FakeColumnIsStored | src/pysmi/pysmi/codegen/symtable.py:518-527 | a fake column has the identifier of its object and its own number |
| StoredSymbols.DeclarationHasParents | src/pysmi/pysmi/codegen/symtable.py:513-516 | the parents a symbol is registered with: its type and the row it augments |
| StoredSymbols.RowsExactly | src/pysmi/pysmi/codegen/symtable.py:571-575 | the rows are the names tables give their rows, and the row class once two tables share rows |
| StoredSymbols.TablesHoldEntries | src/pysmi/pysmi/compiler.py:211 | the tables of all modules hold these entries |
| TypeTermination.AcceptedTypesDescend | src/pysmi/pysmi/codegen/symtable.py:538-547 | on the tables of modules the generator accepted, with acyclic type imports and no row declared as another type, every chase descends in (module rank, place in order) |
| TypeCircles.ChaseEndsExactly | src/pysmi/pysmi/codegen/pysnmp.py:479-496 | the chase of a symbol ends exactly when no chain from it comes back, and otherwise goes on for ever |
| TypeCircles.DescendingFinishes | src/pysmi/pysmi/codegen/pysnmp.py:479-496 | with a measure every chase ends |
| TypeCircles.DescendsExactly | src/pysmi/pysmi/codegen/pysnmp.py:479-496 | a measure for all modules exists exactly when no chain of types comes back to where it was |
| TypeCircles.RowsMakeCircle | src/pysmi/pysmi/codegen/symtable.py:410-420 | an accepted module with a row that is also a type, and a circular chain |
| NumericOids.GenNumericOid | src/pysmi/pysmi/codegen/pysnmp.py:460-477 | wherever the calls end, the loop ends with the expansion, or with the first error from the left |
| NumericOids.PartsGive | src/pysmi/pysmi/codegen/pysnmp.py:460-477 | what a number, iso and a name give, with the error for each thing a name can lack |
| NumericOids.NumbersOnTheWayDown | src/pysmi/pysmi/codegen/pysnmp.py:460-477 | the identifier of a symbol is 1 and the numbers of the definitions from iso down to it |
| NumericOids.WayDown | src/pysmi/pysmi/codegen/pysnmp.py:460-477 | in tables of parents and numbers every symbol whose expansion ends has such a way |
| NumericOids.FinishesExactly | src/pysmi/pysmi/codegen/pysnmp.py:460-477 | the calls end exactly when they never come back to a symbol, and then within as many levels as there are symbols |
| NumericOids.ResolvedFinishesExactly | src/pysmi/pysmi/codegen/pysnmp.py:460-477 | when all names resolve, exactly when no chain of references comes back |
| NumericOids.WellFoundedFinishes | src/pysmi/pysmi/codegen/pysnmp.py:460-477 | on a well-founded graph every expansion ends |
| NumericOids.ChildExtendsParent | src/pysmi/pysmi/codegen/pysnmp.py:460-477 | a child's identifier strictly extends that of its leading parent |
| NumericOids.NumericOidIsInjective | src/pysmi/pysmi/codegen/pysnmp.py:460-477 | different symbols get different identifiers when every definition is parent and number, rooted by name at iso, without repetition |
| NumericOids.CircleNeverFinishes | src/pysmi/pysmi/codegen/pysnmp.py:476 | on a circle of calls no depth is enough |
| OidCircles.ClausesAccepted | src/pysmi/pysmi/codegen/symtable.py:749-758 | a module of clauses is accepted exactly when no symbol is declared twice and every parent is declared or imported |
| OidCircles.AcceptedCircle | src/pysmi/pysmi/codegen/symtable.py:756-758 | a circle of any length is accepted, and the expansion of its identifiers never ends |
| ImportRewrite.Generator.ConvertModule | src/pysmi/pysmi/codegen/symtable.py:380-390 | marks the convertible symbols of a module in order and appends their replacements elsewhere |
| ImportRewrite.Generator.ConvertAll | src/pysmi/pysmi/codegen/symtable.py:379-390 | in any dictionary order each convertible pair is marked as often as it occurs |
| ImportRewrite.Generator.RemoveMarked | src/pysmi/pysmi/codegen/symtable.py:392-393 | removing the first occurrence once per mark removes exactly the convertible pairs |
| ImportRewrite.Generator.MergeConstants | src/pysmi/pysmi/codegen/symtable.py:395-399 | the constant imports are added and nothing else changes |
| ImportRewrite.Generator.GenImports | src/pysmi/pysmi/codegen/symtable.py:377-408 | no convertible pair is left, every other pair is kept, every replacement is added |
| ImportRewrite.SecondGeneratorConvertsNothing | src/pysmi/pysmi/codegen/pysnmp.py:396-419 | a second generator on the shared dictionary converts nothing and appends to no tuple |
| ImportRewrite.BuildImportMap | src/pysmi/pysmi/codegen/symtable.py:401-408 | a name maps to the last module in sorted order that introduces it |
| ImportRewrite.LaterModuleWins | src/pysmi/pysmi/codegen/symtable.py:401-408 | a name belongs to the last module whose imported symbols bring it in |
| ImportRewrite.ImportMapIgnoresOrder | src/pysmi/pysmi/codegen/symtable.py:401-408 | the import map depends on the pairs only |
| ParseWorklist.MibCompiler.TakeText | src/pysmi/pysmi/compiler.py:206-217 | modules are recorded and their imports queued until one is refused |
| ParseWorklist.MibCompiler.TrySources | src/pysmi/pysmi/compiler.py:202-241 | the outcome of trying the sources in turn, whatever texts they hold: modules taken, error noted or withdrawn, imports queued |
| ParseWorklist.VisitExactly | src/pysmi/pysmi/compiler.py:202-241 | every source up to the first that is read has its turn, and none after it; when the name counts as failed |
| ParseWorklist.MibCompiler.Compile | src/pysmi/pysmi/compiler.py:188-241 | wherever the loop ends, it ends in the state reached by taking the names one by one |
| ParseWorklist.CompiledIsConsistent | src/pysmi/pysmi/compiler.py:188-241 | with agreeing names requests and imports end up parsed or failed, all of them reachable, and the tables are those of the parsed modules |
| ParseWorklist.ParsedAndFailedAreReached | src/pysmi/pysmi/compiler.py:192-241 | with one module per text, parsed and failed names are exactly the reachable ones, split by whether a text can be read |
| ParseTermination.LoopEndsExactly | src/pysmi/pysmi/compiler.py:192-241 | the loop ends exactly when no names it meets and never finishes import each other in a circle |
| ParseTermination.RequestEnds | src/pysmi/pysmi/compiler.py:192-241 | for any sources, a request without a circle of orphans ends |
| ParseTermination.RequestEndsExactly | src/pysmi/pysmi/compiler.py:213-217 | when names asked for are recorded by no text but their own, exactly such requests end |
| ParseTermination.AgreeingNamesEnd | src/pysmi/pysmi/compiler.py:192-241 | when each text read to its end holds a module of the requested name, every request ends |
| ParseTermination.OrderDecides | src/pysmi/pysmi/compiler.py:213 | with texts recorded under the names of others, the order of the request alone can decide |
| MissingModules.NoFailureMeansNoMissingModule | src/pysmi/pysmi/codegen/pysnmp.py:468-484 | if nothing failed, no stored identifier fails for a missing module, and the chase of a type does exactly when it stops at a table class |
| MissingModules.TableLacksModule | src/pysmi/pysmi/codegen/symtable.py:571-575 | a module with one table is accepted, and the chase from the table fails for a missing module |
| TwoPasses.PySnmpCodeGen.RegSym | src/pysmi/pysmi/codegen/pysnmp.py:454-458 | duplicate error exactly for a symbol already generated and not imported |
| TwoPasses.PySnmpCodeGen.RegisterDeclaration | src/pysmi/pysmi/codegen/pysnmp.py:597-628 | the object and its fake columns are registered, numbered from the counter |
| TwoPasses.PassesNameTheSame | src/pysmi/pysmi/codegen/symtable.py:506-528 | both passes name the same symbols equally often, fake columns included |
| TwoPasses.PassesAgree | src/pysmi/pysmi/codegen/pysnmp.py:987-995 | for an accepted module and the same fake column counter code generation meets no duplicate and registers exactly the symbols of the table |
| TwoPasses.CountersAgree | src/pysmi/pysmi/codegen/symtable.py:615-624 | for any two counters: every symbol of the table is generated exactly when the counters are equal or the module has no fake columns |
| TwoPasses.RequestedModuleIsGenerated | src/pysmi/pysmi/compiler.py:206-209 | with counters that start alike, exactly when the module has no fake columns or no module parsed before it has |
| TwoPasses.SecondModuleFails | src/pysmi/pysmi/compiler.py:286-299 | a text of two modules with SMIv1 indexes: both are accepted, and the second lacks generated code |
| TwoPasses.GenerateModule | src/pysmi/pysmi/codegen/pysnmp.py:987-995 | the emission in table order finds code for every symbol exactly when the two counters agree or the module has no fake columns |
| TwoPasses.BasesComeFirst | src/pysmi/pysmi/codegen/pysnmp.py:647-656 | in table order the base class of every type is imported or emitted before it, unless it refines a row by name |

## Left out

- Return codes and log messages of the commands; what the shell prints back is modelled.
- A missing System row: the store always has one.
- The shell library: abbreviations, the A.B.C.D matcher and help. Lines match in full words, numbers are decimal digits, and each keyword of a `{ ... }` group may occur once, in any order.
- The sorting of the communities column by the database: the model keeps the order handed to it.
- Changes of the switch version by other programs while the shell runs; the daemon model does follow them.
- Failing transactions while a printed config is replayed; all other results allow them.
- The `show` commands and the installation of commands.
- The comments and spacing of `snmpd.conf`, opening the file, and restarting the agent. An empty communities column is the null pointer the code tests for.
- The meaning of the change macros of the database library: they report a column or table changed since the remembered sequence number.
- Key generation from pass phrases, engine ID decoding and sending in the trap library; an authentication or privacy column holds one of the values the schema and the patterns allow.
- EngineId.CopyMac: a store past the 32-byte buffer is recorded in `overrun` and not carried out, because what it would hit is not part of this model.
- The lexer and the grammar of MIB texts, and the renaming of symbols that are Python keywords or contain hyphens, and of SMIv1 types: names are those after renaming.
- Symbol properties other than parents, object identifiers and syntax; the texts of the generated code.
- ImportRewrite.Generator.GenImports: assumes that replacements and constant imports are not convertible themselves and do not stay in the module (`Settled`), which the tables at src/pysmi/pysmi/codegen/symtable.py:34-47 and 232-291 satisfy; the tables are parameters and not transcribed.
- ParseWorklist.MibCompiler.Compile: each source answers a name the same way whenever it is asked; the results about when the loop ends take finitely many names to be mentioned.
- BaseTypes.GetBaseType: verified for symbols whose chase ends (`ChaseEndsExactly` says which; for the others the code recurses without end), in tables in which no two symbols share a list, as the parser builds them.
- TwoPasses.GenerateModule: how far the counter of code generation moves when it stops at an error is left out.
- MissingModules.NoFailureMeansNoMissingModule: speaks of the references stored in the symbol tables; the names code generation resolves with its own constant imports are left out.
- The `processed` dictionary of the compiler, and `compile` after line 245: searching, borrowing and writing.
- `codegen/netsnmp.py`: its two resolution functions follow those of `pysnmp.py`, the rest is text.
- Readers, searchers, borrowers, writers, plugins and daemon start-up.
