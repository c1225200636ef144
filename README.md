# Category properties of the cms-poc admin panel, in Dafny

The admin panel lets an administrator define product categories, each with a
list of property definitions (a name and a list of allowed values), and arrange
categories under parents. Two pieces of its logic are modelled here:

- **The product form's property list** (`admin/components/ProductForm.tsx`).
  When a category is chosen for a product, the form gathers the property
  definitions to fill by taking the category's own properties and then walking
  its `parent._id` links, appending each ancestor's properties: child first,
  root last. The walk has no guard. A selected id or parent id that names no
  category makes `push(...undefined)` throw a TypeError. A cyclic parent chain
  makes the loop run for ever. The model keeps all three outcomes
  (`ProductForm.Resolution`). It proves that the walk ends exactly when the
  ancestor chain never revisits a category, and that allowing one parent link
  per category is enough to decide this (a pigeonhole argument). The form's
  update of the product's name-to-value property map is modelled as well.
- **The category editor** (`admin/pages/categories.tsx`). The editor keeps
  its properties as `{id, name, values}` records whose `values` is the
  comma-separated text the administrator types. Saving splits it with
  `split(",")`. Opening a stored category joins the list back with `join(",")`.
  The page's state (the category being edited, its name, its parent and the
  property records) is a class. Its event handlers are methods: cancel, save,
  open for editing, add, remove, rename and change values. `split` and `join`
  are modelled in `StringOps`, which proves both round trips and where they
  stop holding.

Modules: `Wrappers` (Option), `StringOps` (split and join),
`Categories` (records, conversions, the editor), `ProductForm` (lookup, the
walk, the property map) and `Inheritance` (what the walk comes to).

The walk does not degrade gracefully: a missing category or missing parent
does not end it with the properties gathered so far, and a cyclic chain is not
cut off. The model keeps these behaviours of the code as they are.

Two consequences of the code that the lemmas make explicit:
- A stored property with an empty value list comes back from open-then-save
  with one empty value (`[""]`), since `[].join(",")` is `""` and
  `"".split(",")` is `[""]` (`Categories.EmptyValuesComeBackBlank`).
- A stored value that contains a comma is cut in two by open-then-save
  (`StringOps.SplitCutsPieceWithSeparator`).

## Model

| member | source | states |
|---|---|---|
| `StringOps.Split` | admin/pages/categories.tsx:61 | splitting always yields at least one piece, and no piece contains the separator |
| `StringOps.Join` | admin/pages/categories.tsx:84 | joining gives `""` for no pieces, starts with the first piece, and puts the separator right after it when there is a second; its meaning is completed by `JoinSplit` and `SplitJoin` |
| `StringOps.JoinSplit` | admin/pages/categories.tsx:61-84 | joining the pieces of any string with the separator gives the string back |
| `StringOps.SplitJoin` | admin/pages/categories.tsx:61-84 | splitting joined pieces gives the pieces back when there is at least one and none contains the separator |
| `StringOps.JoinEmptySplitsToBlank` | admin/pages/categories.tsx:61-84 | an empty list joined and split again becomes one empty piece |
| `StringOps.SplitCutsPieceWithSeparator` | admin/pages/categories.tsx:61-84 | a value `"a,b"` comes back from join-then-split as two values `"a"`, `"b"` |
| `Categories.SaveProperty` | admin/pages/categories.tsx:59-63 | one saved record keeps the editor record's id and name, and its value list joins back into the typed string |
| `Categories.EditProperty` | admin/pages/categories.tsx:81-86 | one editor record keeps the stored record's id and name, and its values string splits back into a non-empty comma-free value list |
| `Categories.SaveProperties` | admin/pages/categories.tsx:59-63 | the saved list has one record per editor record, in the same order, with the same id and name, and the values split at commas |
| `Categories.EditProperties` | admin/pages/categories.tsx:80-87 | the editor list has one record per stored record, in the same order, with the same id and name, and the values joined with commas |
| `Categories.EditAfterSave` | admin/pages/categories.tsx:59-87 | save-then-edit gives back every editor record unchanged, for any input |
| `Categories.SaveAfterEdit` | admin/pages/categories.tsx:59-87 | edit-then-save gives back the stored records when every value list is non-empty and comma-free |
| `Categories.EmptyValuesComeBackBlank` | admin/pages/categories.tsx:59-87 | edit-then-save turns an empty value list into `[""]` |
| `Categories.WithoutIndex` | admin/pages/categories.tsx:121 | the index filter drops one element when `index` is a position of the list and none otherwise, and keeps only elements of the list |
| `Categories.WithoutIndexRemovesOne` | admin/pages/categories.tsx:121 | filtering out position `index` removes exactly that element and keeps the rest in order; an index with no element changes nothing |
| `Categories.CategoryEditor.constructor` | admin/pages/categories.tsx:32-36 | the editor starts with no edited category, empty name and parent, and no property records |
| `Categories.CategoryEditor.SetName` | admin/pages/categories.tsx:161 | typing a name changes the name and nothing else |
| `Categories.CategoryEditor.SetParentCategory` | admin/pages/categories.tsx:167 | choosing a parent changes the parent and nothing else |
| `Categories.CategoryEditor.CancelEditing` | admin/pages/categories.tsx:47-52 | name and parent become `""`, the edited category none, the property list empty |
| `Categories.CategoryEditor.SaveCategory` | admin/pages/categories.tsx:54-74 | the request carries the name, parent and saved properties; it updates the edited category's id when there is one and creates otherwise; the form is then blank |
| `Categories.CategoryEditor.EditCategory` | admin/pages/categories.tsx:76-88 | opening a category records it and loads its name, its parent id (undefined when absent) and its properties with values joined |
| `Categories.CategoryEditor.AddProperty` | admin/pages/categories.tsx:110-117 | exactly one record with the given id and empty name and values is appended; earlier records are unchanged |
| `Categories.CategoryEditor.RemoveProperty` | admin/pages/categories.tsx:119-123 | a valid index removes exactly that record, keeping the order of the rest; an out-of-range index changes nothing |
| `Categories.CategoryEditor.ChangePropertyName` | admin/pages/categories.tsx:125-131 | only the name of record `index` changes, keeping its id and values and every other record; no record at `index` is the thrown TypeError, with the state unchanged |
| `Categories.CategoryEditor.ChangePropertyValues` | admin/pages/categories.tsx:133-139 | only the values of record `index` change, keeping its id and name and every other record; no record at `index` is the thrown TypeError, with the state unchanged |
| `ProductForm.Find` | admin/components/ProductForm.tsx:113 | a found category is listed and carries the looked-up id |
| `ProductForm.FindIsFirstMatch` | admin/components/ProductForm.tsx:113 | the lookup fails exactly when no category carries the id, and otherwise returns the first one that does |
| `ProductForm.HasParent` | admin/components/ProductForm.tsx:116 | the loop test `categoryInfo?.parent?._id`: a parent id that is present and non-empty |
| `ProductForm.Inherited` | admin/components/ProductForm.tsx:116-123 | the ancestors' part of the walk under a link allowance: it can loop only from a category with a parent, and a TypeError names a non-empty missing parent id |
| `ProductForm.ResolveWithin` | admin/components/ProductForm.tsx:111-124 | the walk under a link allowance: a TypeError names a non-empty id, and a finished list for a selected id starts with the found category's own properties |
| `ProductForm.Resolve` | admin/components/ProductForm.tsx:111-124 | the walk's outcome (one link per category suffices, by `ResolveIsExact`): a TypeError names a non-empty id, and looping needs loaded categories and a selected id; `PropertiesToFill` is proved equal to it |
| `ProductForm.PropertiesToFill` | admin/components/ProductForm.tsx:111-124 | the loop's outcome (the gathered list, or the TypeError with the id that was missing) is `Resolve`, for every input on which the loop exits |
| `ProductForm.ChangeProductProperty` | admin/components/ProductForm.tsx:103-109 | the new map sends the name to the value and keeps every other key and its value |
| `ProductForm.LastChangeWins` | admin/components/ProductForm.tsx:103-109 | setting the same name twice keeps the later value |
| `ProductForm.ChangesToDistinctNamesCommute` | admin/components/ProductForm.tsx:103-109 | updates of two different names can be applied in either order |
| `Inheritance.InheritedMonotone` | admin/components/ProductForm.tsx:116-123 | once the walk has finished within some number of links, allowing more links changes nothing |
| `Inheritance.RepeatingChainLoops` | admin/components/ProductForm.tsx:116-123 | a parent chain that revisits a category makes the walk loop for any allowance of links |
| `Inheritance.Pigeonhole` | admin/components/ProductForm.tsx:116-123 | a walk still going after one link per category has a chain that revisits a category |
| `Inheritance.ResolveIsExact` | admin/components/ProductForm.tsx:111-124 | `Resolve` equals the walk's outcome for every allowance that lets it finish and every allowance of at least one link per category; when it says `Loops`, no allowance finishes |
| `Inheritance.LoopsIffChainRepeats` | admin/components/ProductForm.tsx:116-123 | the walk never exits if and only if the selected category's parent chain revisits a category |
| `Inheritance.NothingSelected` | admin/components/ProductForm.tsx:111-112 | no categories loaded, or no category selected, gives an empty list |
| `Inheritance.UnknownCategoryThrows` | admin/components/ProductForm.tsx:113-115 | a selected id that no category carries makes the first spread throw |
| `Inheritance.OwnPropertiesFirst` | admin/components/ProductForm.tsx:113-115 | a finished list starts with the own properties, in stored order, of the first category carrying the selected id |
| `Inheritance.RootCategoryOwnProperties` | admin/components/ProductForm.tsx:115-116 | a category without a parent gives exactly its own properties |
| `Inheritance.MissingParentThrows` | admin/components/ProductForm.tsx:117-121 | a parent id that no category carries makes the spread in the loop throw rather than stop the walk |
| `Inheritance.ThreeLevelChain` | admin/components/ProductForm.tsx:116-123 | for A -> B -> C with C parentless the list is A's, then B's, then C's properties, its length the sum of the three counts |
| `Inheritance.TwoCycleLoops` | admin/components/ProductForm.tsx:116-123 | two categories naming each other as parent make the walk loop for any allowance of links |
| `Inheritance.SativaFlowerExample` | admin/components/ProductForm.tsx:111-124 | "Sativa-Flower" (Type) under "Flower" (Grade) gives Type, then Grade |

## Left out

- HTTP requests (`axios` calls), `fetchCategories`, `deleteCategory`, `saveProduct`, `uploadImages` and the API routes: network, database and object-storage I/O. `SaveCategory` returns the request it would send instead of sending it, and does not refetch.
- SaveCategory: the request is taken to succeed. In the source the form is cleared only after the awaited request resolves; a rejected request skips `cancelEditing()`, and the form keeps its contents. The model always ends in the blank state.
- ChangePropertyName: `ok == false` only marks the TypeError thrown by the assignment through `undefined`. That assignment runs inside a state updater during rendering, and with no error boundary the page is torn down. The unchanged state the model keeps is not what the page shows.
- ChangePropertyValues: as for `ChangePropertyName`, `ok == false` only marks the thrown TypeError; the page is torn down rather than carrying on with its state unchanged.
- ChangeProductProperty: object keys are modelled as plain map keys. Assigning the reserved key `__proto__` on a plain object goes to the prototype setter, which ignores a string, so the key is not added; the model does not capture this.
- The page's `loading` and `categories` state fields: only the fetch writes them.
- React hooks and effects, confirmation dialogs, routing, the image ordering handler and all rendering, including the capitalised property label and the form's default property map: user interface.
- Generation of a new property id with `Math.random()`: `AddProperty` takes the id as a parameter.
- Sorting of the product list: a thin wrapper over the library's locale-dependent sort.
- Aliasing: the rename and values handlers mutate the record object that the previous state array shares. The model treats records as values, so the change to the previous array is not captured.
- `PropertiesToFill` requires that its inputs do not make the loop run for ever. The source accepts them and never returns, and a terminating method cannot model that. `Resolve` gives that outcome as `Loops`, and `LoopsIffChainRepeats` characterises it.
- The select box's lookup of the current value in the product's property map: rendering.
