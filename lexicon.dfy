/**
 * The lexicon `indonesian_abbreviation_map` of main.py:66-262, in its
 * insertion order, written in parts of ten entries each.
 */
module Lexicon {
  import opened Expander

  /** The entries of main.py:68-77. */
  const Part1: Table := [
    ("ad", "弟弟"),
    ("adik", "弟弟"),
    ("kak", "哥哥"),
    ("ce", "姐姐"),
    ("cece", "姐姐"),
    ("ibu", "媽媽"),
    ("bpk", "先生"),
    ("ayah", "爸爸"),
    ("nenek", "奶奶"),
    ("kakek", "爺爺")
  ]

  /** The entries of main.py:78-87. */
  const Part2: Table := [
    ("cucu", "孫子"),
    ("tmn", "朋友"),
    ("tm", "他們"),
    ("sy", "我"),
    ("aku", "我"),
    ("saya", "我"),
    ("kmu", "你"),
    ("km", "你"),
    ("anda", "您"),
    ("dy", "他/她")
  ]

  /** The entries of main.py:88-99. */
  const Part3: Table := [
    ("dia", "他/她"),
    ("dya", "他/她"),
    ("pagi", "早上"),
    ("siang", "中午"),
    ("sore", "下午"),
    ("malam", "晚上"),
    ("bsk", "明天"),
    ("besok", "明天"),
    ("kmrn", "昨天"),
    ("kemarin", "昨天")
  ]

  /** The entries of main.py:100-109. */
  const Part4: Table := [
    ("td", "剛才"),
    ("tdi", "剛才"),
    ("nanti", "等一下"),
    ("udh", "已經"),
    ("sudah", "已經"),
    ("blm", "還沒"),
    ("belum", "還沒"),
    ("hr", "假期"),
    ("hari", "天"),
    ("jam", "pukul")
  ]

  /** The entries of main.py:110-121. */
  const Part5: Table := [
    ("pagi2", "早上早點"),
    ("siang2", "中午時候"),
    ("makan", "吃"),
    ("mkn", "吃"),
    ("minum", "喝"),
    ("mandi", "洗澡"),
    ("mandikan", "幫洗澡"),
    ("ganti", "換"),
    ("tidur", "睡覺"),
    ("t", "tidur")
  ]

  /** The entries of main.py:122-131. */
  const Part6: Table := [
    ("bangun", "起床"),
    ("temani", "陪"),
    ("pulang", "回家"),
    ("bantu", "幫忙"),
    ("rehabilitas", "復健"),
    ("bersih", "打掃"),
    ("cuci", "洗"),
    ("masak", "煮"),
    ("masaknya", "煮的"),
    ("masukan", "放進")
  ]

  /** The entries of main.py:132-143. */
  const Part7: Table := [
    ("potong", "切"),
    ("lihat", "看見"),
    ("lihat2", "看看"),
    ("pegang", "拿著"),
    ("tutup", "關上"),
    ("buka", "打開"),
    ("aj", "aja"),
    ("ajh", "aja"),
    ("aja", "就好"),
    ("deh", "就這樣吧")
  ]

  /** The entries of main.py:144-153. */
  const Part8: Table := [
    ("bwt", "buat"),
    ("buat", "為了"),
    ("jg", "juga"),
    ("jgk", "juga"),
    ("jga", "juga"),
    ("jdi", "jadi"),
    ("jd", "jadi"),
    ("kl", "kalau"),
    ("klw", "kalau"),
    ("klo", "kalau")
  ]

  /** The entries of main.py:154-163. */
  const Part9: Table := [
    ("krn", "karena"),
    ("karna", "karena"),
    ("iya", "ya"),
    ("lya", "ya"),
    ("yaudah", "好啦"),
    ("ywdh", "好啦"),
    ("ngga", "不"),
    ("ga", "不"),
    ("gk", "不"),
    ("nggak", "不")
  ]

  /** The entries of main.py:164-173. */
  const Part10: Table := [
    ("nggaaa", "不"),
    ("gt", "gitu"),
    ("gtu", "gitu"),
    ("gitu", "那樣"),
    ("gtw", "不知道"),
    ("sm", "sama"),
    ("sm2", "sama-sama"),
    ("trs", "terus"),
    ("trus", "terus"),
    ("sja", "saja")
  ]

  /** The entries of main.py:174-183. */
  const Part11: Table := [
    ("sllu", "selalu"),
    ("skrg", "現在"),
    ("dr", "醫生"),
    ("dok", "醫生"),
    ("tp", "tapi"),
    ("tpi", "tapi"),
    ("tapi", "但是"),
    ("ok", "好"),
    ("okee", "好喔"),
    ("okey", "好喔")
  ]

  /** The entries of main.py:184-195. */
  const Part12: Table := [
    ("sip", "好"),
    ("mantap", "太棒了"),
    ("btw", "順便說一下"),
    ("rumah", "家"),
    ("rmh", "家"),
    ("pintu", "門口"),
    ("dpn", "前面"),
    ("belakang", "後面"),
    ("mobil", "車"),
    ("motor", "摩托車")
  ]

  /** The entries of main.py:196-205. */
  const Part13: Table := [
    ("uang", "錢"),
    ("sayur", "蔬菜"),
    ("beras", "米"),
    ("air", "水"),
    ("kursi", "椅子"),
    ("meja", "桌子"),
    ("dapur", "廚房"),
    ("kamar", "房間"),
    ("tempat tidur", "床"),
    ("jendela", "窗戶")
  ]

  /** The entries of main.py:206-217. */
  const Part14: Table := [
    ("halaman", "院子"),
    ("bca", "銀行"),
    ("pt", "有限公司"),
    ("sd", "小學"),
    ("smp", "初中"),
    ("smk", "中等職業學校"),
    ("tk", "幼兒園"),
    ("rt", "居民社區"),
    ("rw", "社區範圍"),
    ("kkn", "社會服務")
  ]

  /** The entries of main.py:218-229. */
  const Part15: Table := [
    ("tni", "印度尼西亞國軍"),
    ("polri", "印度尼西亞警察"),
    ("wfh", "在家工作"),
    ("wfo", "辦公室工作"),
    ("umkm", "微型企業"),
    ("wmm", "微型企業"),
    ("faq", "常見問題"),
    ("bkn", "不是"),
    ("bsa", "bisa"),
    ("bisa", "可以")
  ]

  /** The entries of main.py:230-239. */
  const Part16: Table := [
    ("saja", "就好"),
    ("karena", "因為"),
    ("krg", "少"),
    ("susa", "susah"),
    ("habis", "吃完"),
    ("selesai", "結束"),
    ("sayang", "親愛的"),
    ("syg", "親愛的"),
    ("gpp", "沒關係"),
    ("nd", "下屬")
  ]

  /** The entries of main.py:240-249. */
  const Part17: Table := [
    ("orang", "人"),
    ("wkwk", "哈哈"),
    ("haha", "哈哈"),
    ("hehe", "呵呵"),
    ("loh", "呀"),
    ("lah", "啦"),
    ("nih", "這個"),
    ("dong", "啦"),
    ("kok", "怎麼會"),
    ("lohkok", "怎麼啦")
  ]

  /** The entries of main.py:250-259. */
  const Part18: Table := [
    ("lho", "呢"),
    ("dehh", "就這樣吧"),
    ("bt", "生氣"),
    ("pd", "自信"),
    ("pls", "請"),
    ("thx", "謝謝"),
    ("makasih", "謝謝"),
    ("terima kasih", "謝謝"),
    ("okelah", "好吧"),
    ("gapapa", "沒事")
  ]

  /** The entries of main.py:260-261. */
  const Part19: Table := [
    ("okeeh", "好喔"),
    ("mantul", "很棒")
  ]

  /** The whole lexicon, 182 entries. */
  const IndonesianAbbreviations: Table :=
    Part1 + Part2 + Part3 + Part4 + Part5 + Part6 + Part7 + Part8 + Part9 + Part10 +
    Part11 + Part12 + Part13 + Part14 + Part15 + Part16 + Part17 + Part18 + Part19
}
