/** The teacher and staff directory: six fixed profiles, category tabs, and a "Lihat Profil"
    button that selects one profile. */
module TeacherStaff {
  import opened Wrappers
  import opened Collections

  /** A profile; the photo, expertise, education, contact and achievement fields are display-only
      and are not part of this model. */
  datatype Teacher = Teacher(id: nat, name: string, position: string, category: string)

  const Teachers: seq<Teacher> := [
    Teacher(1, "Drs. H. Ahmad Mahmud, M.Pd.I", "Kepala Sekolah", "kepala"),
    Teacher(2, "Ustadz Dr. Muhammad Syafii, Lc., M.A", "Guru Al-Qur'an Hadits", "guru-agama"),
    Teacher(3, "Ustadzah Siti Khadijah, S.Pd.I, M.Ag", "Guru Fiqh & Akidah Akhlaq", "guru-agama"),
    Teacher(4, "Drs. Bambang Sutrisno, M.Pd", "Guru Matematika", "guru-umum"),
    Teacher(5, "Dr. Sari Wulandari, M.Si", "Guru Kimia & Biologi", "guru-umum"),
    Teacher(6, "Rizki Pratama, S.Pd, M.Pd", "Guru Bahasa Inggris", "guru-umum")
  ]

  const TeacherCategories: seq<string> := ["all", "kepala", "guru-agama", "guru-umum"]

  /** `filteredTeachers`: everyone under "all", otherwise that category's profiles in order. */
  function FilteredTeachers(teachers: seq<Teacher>, category: string): (r: seq<Teacher>)
    ensures category == "all" ==> r == teachers
    ensures category != "all" ==>
              forall t :: t in r <==> t in teachers && t.category == category
    ensures SubsequenceOf(r, teachers)
  {
    if category == "all" then
      assert SubsequenceOf(teachers, teachers) by {
        PrefixIsSubsequence(teachers, |teachers|);
        assert Prefix(teachers, |teachers|) == teachers;
      }
      teachers
    else
      FilterIsSubsequence(teachers, (t: Teacher) => t.category == category);
      Filter(teachers, (t: Teacher) => t.category == category)
  }

  /** Profiles whose categories are three distinct values split into the three filtered views. */
  lemma CategoriesPartition(teachers: seq<Teacher>, a: string, b: string, c: string)
    requires a != b && b != c && a != c && a != "all" && b != "all" && c != "all"
    requires forall t :: t in teachers ==> t.category == a || t.category == b || t.category == c
    ensures |FilteredTeachers(teachers, a)| + |FilteredTeachers(teachers, b)|
            + |FilteredTeachers(teachers, c)| == |teachers|
  {
    FilterSplits3(teachers, (t: Teacher) => t.category == a, (t: Teacher) => t.category == b,
                  (t: Teacher) => t.category == c);
  }

  /** The "Kepala Sekolah" tab shows exactly one profile: the head of school. */
  lemma OneHeadOfSchool()
    ensures |FilteredTeachers(Teachers, "kepala")| == 1
    ensures FilteredTeachers(Teachers, "kepala")[0] == Teachers[0]
    ensures Teachers[0].position == "Kepala Sekolah"
  {
    assert forall i :: 1 <= i < |Teachers| ==> Teachers[i].category != "kepala";
    OnlyFirstIsHead(Teachers);
  }

  /** The "kepala" tab keeps only the first profile when no other profile is in that category. */
  lemma OnlyFirstIsHead(teachers: seq<Teacher>)
    requires teachers != [] && teachers[0].category == "kepala"
    requires forall i :: 1 <= i < |teachers| ==> teachers[i].category != "kepala"
    ensures FilteredTeachers(teachers, "kepala") == [teachers[0]]
  {
    var p := (t: Teacher) => t.category == "kepala";
    var rest := teachers[1..];
    assert Filter(rest, p) == [] by {
      assert forall t :: t in rest ==> !p(t);
      FilterNone(rest, p);
    }
    assert Filter(teachers, p) == [teachers[0]] + Filter(rest, p);
  }

  /** The three category tabs split the directory: every profile belongs to one of them, none
      is shown under two of them and none is missing from all three. */
  lemma DirectoryIsPartitioned()
    ensures forall t :: t in Teachers ==> t.category in TeacherCategories[1..]
    ensures |FilteredTeachers(Teachers, TeacherCategories[1])| + |FilteredTeachers(Teachers, TeacherCategories[2])|
            + |FilteredTeachers(Teachers, TeacherCategories[3])| == |Teachers| == 6
  {
    TabsPartition(Teachers, TeacherCategories);
  }

  /** Category tabs after "all" that are distinct and cover every profile split the profiles. */
  lemma TabsPartition(teachers: seq<Teacher>, tabs: seq<string>)
    requires tabs == ["all", "kepala", "guru-agama", "guru-umum"]
    requires forall t :: t in teachers ==> t.category in tabs[1..]
    ensures |FilteredTeachers(teachers, tabs[1])| + |FilteredTeachers(teachers, tabs[2])|
            + |FilteredTeachers(teachers, tabs[3])| == |teachers|
  {
    assert forall t :: t in teachers ==>
             t.category == tabs[1] || t.category == tabs[2] || t.category == tabs[3];
    CategoriesPartition(teachers, tabs[1], tabs[2], tabs[3]);
  }

  /** The component's state: the selected tab and the profile chosen with "Lihat Profil". */
  class TeacherStaffSection {
    var selectedCategory: string
    var selectedTeacher: Option<Teacher>

    constructor ()
      ensures selectedCategory == "all" && selectedTeacher == None
    {
      selectedCategory := "all";
      selectedTeacher := None;
    }

    method SelectCategory(category: string)
      modifies this`selectedCategory
      ensures selectedCategory == category
    {
      selectedCategory := category;
    }

    /** "Lihat Profil" on a card of the current grid: records the teacher and nothing else. */
    method ViewProfile(t: Teacher)
      modifies this`selectedTeacher
      ensures selectedTeacher == Some(t)
      ensures selectedCategory == old(selectedCategory)
    {
      selectedTeacher := Some(t);
    }

    function Shown(): (r: seq<Teacher>)
      reads this
      ensures selectedCategory == "all" ==> r == Teachers
      ensures selectedCategory != "all" ==>
                forall t :: t in r <==> t in Teachers && t.category == selectedCategory
      ensures SubsequenceOf(r, Teachers)
    {
      FilteredTeachers(Teachers, selectedCategory)
    }
  }
}
